/** The Udio extractors: a single song (`UdioIE`) and a playlist (`UdioPlaylistIE`). The page
    text is an input; downloading it is the host framework's business. */
module Udio {
  import opened Wrappers
  import opened Text
  import opened Patterns
  import opened Info
  import opened InlineJson
  import opened UrlShape

  // ---------------------------------------------------------------------------------------
  // UdioIE._VALID_URL:
  //   https?://(?:www\.)?udio\.com/(?:songs)/(?P<id>[0-9a-fA-F-]{36}|[0-9a-zA-Z]{22})

  /** The short identifier shape `[0-9a-zA-Z]{22}`. */
  predicate IsShortId(id: string)
  {
    |id| == 22 && All(Alnum, id)
  }

  /** The identifier alternation reads exactly `id` from `id + rest`: either `id` has the
      36-character shape, or it is a short identifier and the 36-character alternative, tried
      first, fails on `id + rest`. */
  predicate PicksId(id: string, rest: string)
  {
    IsUuidShape(id) || (IsShortId(id) && RunExact(HexOrHyphen, 36, id + rest).None?)
  }

  datatype SongUrl = SongUrl(secure: bool, www: bool, id: string)

  /** The song URL with the given parts, followed by `rest`. */
  function SpellSongUrl(m: SongUrl, rest: string): string
  {
    SchemeText(m.secure) + (Flag(m.www, "www.") + ("udio.com/songs/" + (m.id + rest)))
  }

  /** The identifier alternation: the 36-character shape is tried first, the 22-character one
      only when the first fails. */
  function SongIdAt(s: string): (r: Option<string>)
    ensures r.Some? ==> |r.value| <= |s| && s == r.value + s[|r.value|..]
    ensures r.Some? ==> IsUuidShape(r.value) || (IsShortId(r.value) && RunExact(HexOrHyphen, 36, s).None?)
  {
    match RunExact(HexOrHyphen, 36, s)
    case Some(id) => Some(id)
    case None => RunExact(Alnum, 22, s)
  }

  /** The song pattern matched at the start of `url`; whatever follows the identifier is
      ignored. */
  function ParseSongUrl(url: string): (r: Option<SongUrl>)
    ensures r.Some? ==> exists rest :: url == SpellSongUrl(r.value, rest) && PicksId(r.value.id, rest)
  {
    var sc :- Scheme(url);
    var (www, s1) := Opt(sc.1, "www.");
    var s2 :- Lit(s1, "udio.com/songs/");
    var id :- SongIdAt(s2);
    var m := SongUrl(sc.0, www, id);
    assert url == SpellSongUrl(m, s2[|id|..]);
    Some(m)
  }

  /** `_match_id` for `UdioIE`. */
  function SongId(url: string): (r: Option<string>)
    ensures r.Some? ==> IsUuidShape(r.value) || IsShortId(r.value)
  {
    match ParseSongUrl(url)
    case None => None
    case Some(m) => Some(m.id)
  }

  /** `_match_id` yields `id` exactly when the URL spells some parts with that identifier. */
  lemma SongIdIff(url: string, id: string)
    ensures SongId(url) == Some(id) <==> exists m: SongUrl, rest :: m.id == id && url == SpellSongUrl(m, rest) && PicksId(id, rest)
  {
    if SongId(url) == Some(id) {
      var m := ParseSongUrl(url).value;
      var rest :| url == SpellSongUrl(m, rest) && PicksId(id, rest);
      assert m.id == id;
    }
    if exists m: SongUrl, rest :: m.id == id && url == SpellSongUrl(m, rest) && PicksId(id, rest) {
      var m: SongUrl, rest :| m.id == id && url == SpellSongUrl(m, rest) && PicksId(id, rest);
      ParseSongUrlComplete(m, rest);
    }
  }

  /** Every URL of song shape is recognised with exactly its parts. A short identifier is only
      recognised when it and what follows do not form the 36-character shape, which would win. */
  lemma ParseSongUrlComplete(m: SongUrl, rest: string)
    requires PicksId(m.id, rest)
    ensures ParseSongUrl(SpellSongUrl(m, rest)) == Some(m)
  {
    var s2 := "udio.com/songs/" + (m.id + rest);
    var s1 := Flag(m.www, "www.") + s2;
    SchemeFound(m.secure, s1);
    if m.www { OptTaken("www.", s2); } else { OptSkipped("www.", s2); }
    LitFound("udio.com/songs/", m.id + rest);
    if IsUuidShape(m.id) {
      assert (m.id + rest)[..36] == m.id;
    } else {
      assert (m.id + rest)[..22] == m.id;
    }
  }

  /** A URL is recognised as a song with parts `m` exactly when it is the URL those parts spell
      followed by some `rest`, and the identifier is either of the 36-character shape or a short
      one that the 36-character alternative does not pre-empt. */
  lemma SongUrlIff(url: string, m: SongUrl)
    ensures ParseSongUrl(url) == Some(m) <==> exists rest :: url == SpellSongUrl(m, rest) && PicksId(m.id, rest)
  {
    if exists rest :: url == SpellSongUrl(m, rest) && PicksId(m.id, rest) {
      var rest :| url == SpellSongUrl(m, rest) && PicksId(m.id, rest);
      ParseSongUrlComplete(m, rest);
    }
  }

  /** A short identifier at the end of the URL, or before a character outside the
      36-character shape's class, is recognised. */
  lemma ShortIdRecognised(m: SongUrl, rest: string)
    requires IsShortId(m.id)
    requires rest == [] || !In(HexOrHyphen, rest[0])
    ensures ParseSongUrl(SpellSongUrl(m, rest)) == Some(m)
  {
    if |m.id + rest| >= 36 {
      assert (m.id + rest)[..36][22] == rest[0];
    }
    ParseSongUrlComplete(m, rest);
  }

  // ---------------------------------------------------------------------------------------
  // UdioPlaylistIE._VALID_URL:  https?://(?:www\.)?udio\.com/playlists/(?P<id>[0-9a-zA-Z-]+)

  datatype PlaylistUrl = PlaylistUrl(secure: bool, www: bool, id: string)

  /** The playlist URL with the given parts, followed by `rest`. */
  function SpellPlaylistUrl(m: PlaylistUrl, rest: string): string
  {
    SchemeText(m.secure) + (Flag(m.www, "www.") + ("udio.com/playlists/" + (m.id + rest)))
  }

  /** A playlist identifier: a non-empty run of letters, digits and hyphens. */
  predicate IsSlug(id: string)
  {
    id != [] && All(AlnumOrHyphen, id)
  }

  /** `rest` does not extend a playlist identifier it follows. */
  predicate EndsSlug(rest: string)
  {
    rest == [] || !In(AlnumOrHyphen, rest[0])
  }

  /** The playlist pattern matched at the start of `url`: the identifier is the longest run of
      its class. */
  function ParsePlaylistUrl(url: string): (r: Option<PlaylistUrl>)
    ensures r.Some? ==> IsSlug(r.value.id) && exists rest :: url == SpellPlaylistUrl(r.value, rest) && EndsSlug(rest)
  {
    var sc :- Scheme(url);
    var (www, s1) := Opt(sc.1, "www.");
    var s2 :- Lit(s1, "udio.com/playlists/");
    var id := TakeWhile(AlnumOrHyphen, s2);
    if id == [] then None
    else
      var m := PlaylistUrl(sc.0, www, id);
      var rest := s2[|id|..];
      assert url == SpellPlaylistUrl(m, rest);
      assert EndsSlug(rest) by {
        assert rest == [] || rest[0] == s2[|id|];
      }
      Some(m)
  }

  /** `_match_id` for `UdioPlaylistIE`. */
  function PlaylistId(url: string): (r: Option<string>)
    ensures r.Some? ==> IsSlug(r.value)
  {
    match ParsePlaylistUrl(url)
    case None => None
    case Some(m) => Some(m.id)
  }

  /** `_match_id` yields `id` exactly when the URL spells some parts with that identifier. */
  lemma PlaylistIdIff(url: string, id: string)
    ensures PlaylistId(url) == Some(id) <==> IsSlug(id) && exists m: PlaylistUrl, rest :: m.id == id && url == SpellPlaylistUrl(m, rest) && EndsSlug(rest)
  {
    if PlaylistId(url) == Some(id) {
      var m := ParsePlaylistUrl(url).value;
      var rest :| url == SpellPlaylistUrl(m, rest) && EndsSlug(rest);
      assert m.id == id;
    }
    if IsSlug(id) && exists m: PlaylistUrl, rest :: m.id == id && url == SpellPlaylistUrl(m, rest) && EndsSlug(rest) {
      var m: PlaylistUrl, rest :| m.id == id && url == SpellPlaylistUrl(m, rest) && EndsSlug(rest);
      ParsePlaylistUrlComplete(m, rest);
    }
  }

  lemma ParsePlaylistUrlComplete(m: PlaylistUrl, rest: string)
    requires IsSlug(m.id) && EndsSlug(rest)
    ensures ParsePlaylistUrl(SpellPlaylistUrl(m, rest)) == Some(m)
  {
    var s2 := "udio.com/playlists/" + (m.id + rest);
    var s1 := Flag(m.www, "www.") + s2;
    SchemeFound(m.secure, s1);
    if m.www { OptTaken("www.", s2); } else { OptSkipped("www.", s2); }
    LitFound("udio.com/playlists/", m.id + rest);
    TakeWhileStops(AlnumOrHyphen, m.id, rest);
  }

  /** A URL is recognised as a playlist with parts `m` exactly when it is the URL those parts spell
      followed by text that does not extend the identifier. */
  lemma PlaylistUrlIff(url: string, m: PlaylistUrl)
    ensures ParsePlaylistUrl(url) == Some(m) <==> IsSlug(m.id) && exists rest :: url == SpellPlaylistUrl(m, rest) && EndsSlug(rest)
  {
    if IsSlug(m.id) && exists rest :: url == SpellPlaylistUrl(m, rest) && EndsSlug(rest) {
      var rest :| url == SpellPlaylistUrl(m, rest) && EndsSlug(rest);
      ParsePlaylistUrlComplete(m, rest);
    }
  }

  // ---------------------------------------------------------------------------------------
  // UdioIE._real_extract

  /** Extract a song from its URL and its page. A missing duration aborts the whole extraction. */
  function ExtractSong(url: string, page: string, host: Host): (r: Result<Item, Failure>)
    ensures r == Failure(NoMatch) <==> SongId(url).None?
    ensures r == Failure(RegexNotFound("duration")) <==> SongId(url).Some? && Duration(page).None?
    ensures r.Success? <==> SongId(url).Some? && Duration(page).Some?
    ensures r.Success? ==>
      && r.value.id == SongId(url).value
      && Duration(page) == Some(r.value.duration)
      && r.value.title == host.ogSearch("title", page)
      && r.value.description == host.ogSearch("description", page)
      && r.value.thumbnail == host.ogSearch("image", page)
      && r.value.formats == [Format(host.htmlMeta("og:audio:url", page)), Format(host.htmlMeta("og:video:url", page))]
  {
    match SongId(url)
    case None => Failure(NoMatch)
    case Some(id) =>
      match Duration(page)
      case None => Failure(RegexNotFound("duration"))
      case Some(d) =>
        Success(Item(
          id,
          host.ogSearch("title", page),
          host.ogSearch("description", page),
          host.ogSearch("image", page),
          d,
          [Format(host.htmlMeta("og:audio:url", page)), Format(host.htmlMeta("og:video:url", page))]))
  }

  /** A song page carrying `\"duration\": <n>` is extracted with the URL's identifier and
      duration `n`. */
  lemma SongWithDuration(m: SongUrl, tail: string, prefix: string, ws: string, n: nat, rest: string, host: Host)
    requires PicksId(m.id, tail)
    requires NoMatchBefore(DurationPattern, prefix + Key("duration") + ws + Decimal(n) + rest, |prefix|)
    requires All(Space, ws)
    requires rest == [] || !IsDigit(rest[0])
    ensures var r := ExtractSong(SpellSongUrl(m, tail), prefix + Key("duration") + ws + Decimal(n) + rest, host);
      r.Success? && r.value.id == m.id && r.value.duration == n && |r.value.formats| == 2
  {
    ParseSongUrlComplete(m, tail);
    DurationFound(prefix, ws, n, rest);
  }

  // ---------------------------------------------------------------------------------------
  // UdioPlaylistIE._real_extract

  /** `\\"song_list\\":\[(.*?)\]` */
  const SongListPattern: Pattern := KeyedList("song_list")

  /** The song URL a playlist entry defers to. */
  function SongEntryUrl(id: string): string
  {
    "https://udio.com/songs/" + id
  }

  function SongEntry(id: string): UrlResult
  {
    UrlResult(SongEntryUrl(id), UdioIE, id)
  }

  /** Extract a playlist from its URL and its page: the song list fragment must be present; each
      quoted token inside it becomes a deferred song reference, in order, duplicates kept. */
  function ExtractPlaylist(url: string, page: string, host: Host): (r: Result<Playlist, Failure>)
    ensures r == Failure(NoMatch) <==> PlaylistId(url).None?
    ensures r == Failure(RegexNotFound("match_entries")) <==>
      PlaylistId(url).Some? && Search(SongListPattern, page).None?
    ensures r.Success? <==> PlaylistId(url).Some? && Search(SongListPattern, page).Some?
    ensures r.Success? ==>
      && r.value.id == PlaylistId(url).value
      && r.value.title == host.ogSearch("title", page)
      && r.value.description == host.ogSearch("description", page)
      && Search(SongListPattern, page).Some?
      && var ids := Findall(Quoted, Search(SongListPattern, page).value);
         && |r.value.entries| == |ids|
         && forall k :: 0 <= k < |ids| ==> r.value.entries[k] == SongEntry(ids[k])
  {
    match PlaylistId(url)
    case None => Failure(NoMatch)
    case Some(id) =>
      match Search(SongListPattern, page)
      case None => Failure(RegexNotFound("match_entries"))
      case Some(fragment) =>
        var ids := Findall(Quoted, fragment);
        Success(Playlist(
          id,
          host.ogSearch("title", page),
          host.ogSearch("description", page),
          seq(|ids|, k requires 0 <= k < |ids| => SongEntry(ids[k]))))
  }

  /** Every entry identifier holds no `]`, no newline and no backslash-quote pair. */
  lemma EntryIdsShape(url: string, page: string, host: Host)
    ensures var r := ExtractPlaylist(url, page, host);
      r.Success? ==> forall e | e in r.value.entries ::
        e.ie == UdioIE && e.url == SongEntryUrl(e.videoId) &&
        ']' !in e.videoId && '\n' !in e.videoId && NoEscQuote(e.videoId)
  {
    var r := ExtractPlaylist(url, page, host);
    if r.Success? {
      var fragment := Search(SongListPattern, page).value;
      QuotedTokensAvoid(fragment, ']');
      forall e | e in r.value.entries
        ensures e.ie == UdioIE && e.url == SongEntryUrl(e.videoId)
        ensures ']' !in e.videoId && '\n' !in e.videoId && NoEscQuote(e.videoId)
      {
        var k :| 0 <= k < |r.value.entries| && r.value.entries[k] == e;
        assert Findall(Quoted, fragment)[k] in Findall(Quoted, fragment);
      }
    }
  }

  /** A playlist's entries come from a `song_list` array the page spells out, and each entry is a
      token the array encloses in escaped quotes. */
  lemma PlaylistEntriesFromQuotes(url: string, page: string, host: Host)
    ensures var r := ExtractPlaylist(url, page, host);
      r.Success? ==>
        var fragment := Search(SongListPattern, page).value;
        (exists i: nat :: i <= |page| && Key("song_list") + "[" + fragment + "]" <= page[i..]) &&
        forall e | e in r.value.entries :: exists j: nat :: j <= |fragment| && QuotedItem(e.videoId) <= fragment[j..]
  {
    var r := ExtractPlaylist(url, page, host);
    if r.Success? {
      var fragment := Search(SongListPattern, page).value;
      SongListInPage(page);
      forall e | e in r.value.entries
        ensures exists j: nat :: j <= |fragment| && QuotedItem(e.videoId) <= fragment[j..]
      {
        var k :| 0 <= k < |r.value.entries| && r.value.entries[k] == e;
        var c := Findall(Quoted, fragment)[k];
        assert c in Findall(Quoted, fragment);
        QuotedFoundIn(fragment, c);
      }
    }
  }

  /** The fragment `re.search` reports for `song_list` sits inside a full `"song_list":[...]`
      array of the page. */
  lemma SongListInPage(page: string)
    requires Search(SongListPattern, page).Some?
    ensures var fragment := Search(SongListPattern, page).value;
      exists i: nat :: i <= |page| && Key("song_list") + "[" + fragment + "]" <= page[i..]
  {
    var fragment := Search(SongListPattern, page).value;
    SearchSound(SongListPattern, page);
    var i: nat :| MatchesAt(SongListPattern, page, i, fragment);
    var h := MatchAt(SongListPattern, page[i..]).value;
    assert page[i..][..h.len] == Key("song_list") + "[" + fragment + "]";
  }

  /** A token `re.findall` reports sits between two escaped quotes of the fragment. */
  lemma QuotedFoundIn(fragment: string, c: string)
    requires c in Findall(Quoted, fragment)
    ensures exists j: nat :: j <= |fragment| && QuotedItem(c) <= fragment[j..]
  {
    FindallSound(Quoted, fragment, c);
    var j: nat :| MatchesAt(Quoted, fragment, j, c);
    QuotedFramed(fragment[j..], c);
  }

  /** A quoted-token match with capture `c` starts with the token in escaped quotes. */
  lemma QuotedFramed(t: string, c: string)
    requires MatchAt(Quoted, t).Some? && MatchAt(Quoted, t).value.capture == c
    ensures QuotedItem(c) <= t
  {
    var g := MatchQuoted(t).value;
    assert t[..g.len] == EscQuote + c + EscQuote == QuotedItem(c);
  }

  /** An entry URL is accepted by `UdioIE` with the entry's own identifier exactly when the
      token has one of the two identifier shapes; other tokens are passed on unchecked. */
  lemma EntryUrlRoundTripIff(tok: string)
    ensures SongId(SongEntryUrl(tok)) == Some(tok) <==> IsUuidShape(tok) || IsShortId(tok)
  {
    var m := SongUrl(true, false, tok);
    assert SpellSongUrl(m, []) == SongEntryUrl(tok);
    if IsUuidShape(tok) || IsShortId(tok) {
      assert tok + [] == tok;
      ParseSongUrlComplete(m, []);
    }
    if SongId(SongEntryUrl(tok)) == Some(tok) {
      var p := ParseSongUrl(SongEntryUrl(tok)).value;
      assert p.id == tok;
    }
  }

  /** One quoted token `\"id\"` as the page's JSON writes it. */
  function QuotedItem(id: string): string
  {
    EscQuote + (id + EscQuote)
  }

  /** The song list's contents as the page writes them: quoted tokens separated by commas. */
  function QuotedList(ids: seq<string>): string
    decreases |ids|, 0
  {
    if ids == [] then "" else QuotedItem(ids[0]) + MoreItems(ids[1..])
  }

  /** The items after the first, each preceded by a comma. */
  function MoreItems(ids: seq<string>): string
    decreases |ids|, 1
  {
    if ids == [] then "" else "," + QuotedList(ids)
  }

  /** A token the song list can carry and give back unchanged. */
  predicate IsListToken(id: string)
  {
    ']' !in id && '\n' !in id && NoEscQuote(id)
  }

  lemma {:induction false} QuotedListPlain(ids: seq<string>)
    requires forall k :: 0 <= k < |ids| ==> IsListToken(ids[k])
    ensures ']' !in QuotedList(ids) && '\n' !in QuotedList(ids)
    decreases |ids|
  {
    if |ids| > 1 {
      QuotedListPlain(ids[1..]);
    }
  }

  /** The first quoted item is read whole, and the scan goes on right after it. */
  lemma QuotedItemFirst(id: string, x: string)
    requires '\n' !in id && NoEscQuote(id)
    ensures Findall(Quoted, QuotedItem(id) + x) == [id] + Findall(Quoted, x)
  {
    var s := QuotedItem(id) + x;
    assert s == EscQuote + (id + (EscQuote + x));
    QuotedAt(id, x);
    FindallStep(Quoted, s);
    assert s[|id| + 4..] == x;
  }

  /** Scanning the quoted tokens of a written list gives back the list: same count, same order,
      duplicates kept. */
  lemma {:induction false} QuotedListRoundTrip(ids: seq<string>)
    requires forall k :: 0 <= k < |ids| ==> IsListToken(ids[k])
    ensures Findall(Quoted, QuotedList(ids)) == ids
    decreases |ids|
  {
    if ids != [] {
      QuotedItemFirst(ids[0], MoreItems(ids[1..]));
      if |ids| > 1 {
        SkipPlain(Quoted, ",", QuotedList(ids[1..]));
        QuotedListRoundTrip(ids[1..]);
      }
      assert ids == [ids[0]] + ids[1..];
    }
  }

  /** The song list fragment is the text between the list key and the first `]` after it, when
      the key is the leftmost place where the song list pattern matches. */
  lemma SongListFound(prefix: string, list: string, rest: string)
    requires NoMatchBefore(SongListPattern, prefix + ((Key("song_list") + "[") + (list + ("]" + rest))), |prefix|)
    requires ']' !in list && '\n' !in list
    ensures Search(SongListPattern, prefix + ((Key("song_list") + "[") + (list + ("]" + rest)))) == Some(list)
  {
    var k := Key("song_list") + "[";
    SongListAt(list, rest);
    SearchAfter(SongListPattern, prefix, k + (list + ("]" + rest)), Hit(list, |k| + |list| + 1));
  }

  /** The song list pattern anchored at the key captures the text up to the first `]`. */
  lemma SongListAt(list: string, rest: string)
    requires ']' !in list && '\n' !in list
    ensures var k := Key("song_list") + "[";
      MatchAt(SongListPattern, k + (list + ("]" + rest))) == Some(Hit(list, |k| + |list| + 1))
  {
    var k := Key("song_list") + "[";
    var s := k + (list + ("]" + rest));
    assert s[|k|..] == list + ("]" + rest);
    UpToStopsAt(list, ']', rest);
  }

  /** A playlist page whose song list holds the tokens `ids` yields exactly one entry per token,
      in order, duplicates kept. */
  lemma PlaylistEntriesFromSongList(url: string, prefix: string, ids: seq<string>, rest: string, host: Host)
    requires PlaylistId(url).Some?
    requires NoMatchBefore(SongListPattern, prefix + ((Key("song_list") + "[") + (QuotedList(ids) + ("]" + rest))), |prefix|)
    requires forall k :: 0 <= k < |ids| ==> IsListToken(ids[k])
    ensures var r := ExtractPlaylist(url, prefix + ((Key("song_list") + "[") + (QuotedList(ids) + ("]" + rest))), host);
      r.Success? && |r.value.entries| == |ids| &&
      forall k :: 0 <= k < |ids| ==> r.value.entries[k] == SongEntry(ids[k])
  {
    QuotedListPlain(ids);
    SongListFound(prefix, QuotedList(ids), rest);
    QuotedListRoundTrip(ids);
  }
}

/** The Suno extractors: a single song (`SunoIE`) and a playlist (`SunoPlaylistIE`). The page
    text is an input; downloading it is the host framework's business. */
module Suno {
  import opened Wrappers
  import opened Text
  import opened Patterns
  import opened Info
  import opened InlineJson
  import opened UrlShape

  // ---------------------------------------------------------------------------------------
  // SunoIE._VALID_URL:
  //   https?://(?:www\.)?(?:app\.)?suno\.(?:com|ai)/(?:song|embed)/(?P<id>[0-9a-fA-F-]{36})

  datatype Tld = Com | Ai
  datatype SongPath = Song | Embed

  /** The parts of a song URL the pattern distinguishes. */
  datatype SongUrl = SongUrl(secure: bool, www: bool, app: bool, tld: Tld, path: SongPath, id: string)

  /** The top-level domain with the slash after it. */
  function TldSlash(t: Tld): string
  {
    match t
    case Com => "com/"
    case Ai => "ai/"
  }

  /** The path segment with the slash after it. */
  function PathSlash(p: SongPath): string
  {
    match p
    case Song => "song/"
    case Embed => "embed/"
  }

  /** The URL with the given parts, followed by `rest`. */
  function SpellSongUrl(m: SongUrl, rest: string): string
  {
    SchemeText(m.secure) + (Flag(m.www, "www.") + (Flag(m.app, "app.") + ("suno." +
      (TldSlash(m.tld) + (PathSlash(m.path) + (m.id + rest))))))
  }

  /** `(?:com|ai)/`; the two alternatives start differently, so at most one can match. */
  function TldAt(s: string): (r: Option<(Tld, string)>)
    ensures r.Some? ==> s == TldSlash(r.value.0) + r.value.1
  {
    if "com/" <= s then Some((Com, s[4..])) else if "ai/" <= s then Some((Ai, s[3..])) else None
  }

  /** `(?:song|embed)/` */
  function PathAt(s: string): (r: Option<(SongPath, string)>)
    ensures r.Some? ==> s == PathSlash(r.value.0) + r.value.1
  {
    if "song/" <= s then Some((Song, s[5..])) else if "embed/" <= s then Some((Embed, s[6..])) else None
  }

  /** The song pattern matched at the start of `url`; whatever follows the identifier is
      ignored. */
  function ParseSongUrl(url: string): (r: Option<SongUrl>)
    ensures r.Some? ==> IsUuidShape(r.value.id) && exists rest :: url == SpellSongUrl(r.value, rest)
  {
    var sc :- Scheme(url);
    var (www, s1) := Opt(sc.1, "www.");
    var (app, s2) := Opt(s1, "app.");
    var s3 :- Lit(s2, "suno.");
    var tld :- TldAt(s3);
    var path :- PathAt(tld.1);
    var id :- RunExact(HexOrHyphen, 36, path.1);
    var m := SongUrl(sc.0, www, app, tld.0, path.0, id);
    assert url == SpellSongUrl(m, path.1[36..]);
    Some(m)
  }

  /** `_match_id` for `SunoIE`. */
  function SongId(url: string): (r: Option<string>)
    ensures r.Some? ==> IsUuidShape(r.value)
  {
    match ParseSongUrl(url)
    case None => None
    case Some(m) => Some(m.id)
  }

  /** `_match_id` yields `id` exactly when the URL spells some parts with that identifier. */
  lemma SongIdIff(url: string, id: string)
    ensures SongId(url) == Some(id) <==> IsUuidShape(id) && exists m: SongUrl, rest :: m.id == id && url == SpellSongUrl(m, rest)
  {
    if SongId(url) == Some(id) {
      var m := ParseSongUrl(url).value;
      var rest :| url == SpellSongUrl(m, rest);
      assert m.id == id;
    }
    if IsUuidShape(id) && exists m: SongUrl, rest :: m.id == id && url == SpellSongUrl(m, rest) {
      var m: SongUrl, rest :| m.id == id && url == SpellSongUrl(m, rest);
      ParseSongUrlComplete(m, rest);
    }
  }

  lemma TldFound(t: Tld, x: string)
    ensures TldAt(TldSlash(t) + x) == Some((t, x))
  {
    var s := TldSlash(t) + x;
    if t == Com {
      assert "com/" <= s && s[4..] == x;
    } else {
      assert s[0] == 'a' && "ai/" <= s && s[3..] == x;
    }
  }

  lemma PathFound(p: SongPath, x: string)
    ensures PathAt(PathSlash(p) + x) == Some((p, x))
  {
    var s := PathSlash(p) + x;
    if p == Song {
      assert "song/" <= s && s[5..] == x;
    } else {
      assert s[0] == 'e' && "embed/" <= s && s[6..] == x;
    }
  }

  /** Every URL of song shape is recognised with exactly its parts, whatever follows it. */
  lemma ParseSongUrlComplete(m: SongUrl, rest: string)
    requires IsUuidShape(m.id)
    ensures ParseSongUrl(SpellSongUrl(m, rest)) == Some(m)
  {
    var s4 := PathSlash(m.path) + (m.id + rest);
    var s3 := TldSlash(m.tld) + s4;
    var s2 := "suno." + s3;
    var s1 := Flag(m.app, "app.") + s2;
    var s0 := Flag(m.www, "www.") + s1;
    SchemeFound(m.secure, s0);
    if m.www { OptTaken("www.", s1); } else { OptSkipped("www.", s1); }
    if m.app { OptTaken("app.", s2); } else { OptSkipped("app.", s2); }
    LitFound("suno.", s3);
    TldFound(m.tld, s4);
    PathFound(m.path, m.id + rest);
    assert (m.id + rest)[..36] == m.id;
  }

  /** A URL is recognised as a song with parts `m` exactly when `m`'s identifier has the right
      shape and the URL is the URL those parts spell, followed by anything. */
  lemma SongUrlIff(url: string, m: SongUrl)
    ensures ParseSongUrl(url) == Some(m) <==> IsUuidShape(m.id) && exists rest :: url == SpellSongUrl(m, rest)
  {
    if IsUuidShape(m.id) && exists rest :: url == SpellSongUrl(m, rest) {
      var rest :| url == SpellSongUrl(m, rest);
      ParseSongUrlComplete(m, rest);
    }
  }

  // ---------------------------------------------------------------------------------------
  // SunoPlaylistIE._VALID_URL:  https?://(?:www\.)?suno\.com/playlist/(?P<id>[0-9a-fA-F-]{36})

  datatype PlaylistUrl = PlaylistUrl(secure: bool, www: bool, id: string)

  /** The playlist URL with the given parts, followed by `rest`. */
  function SpellPlaylistUrl(m: PlaylistUrl, rest: string): string
  {
    SchemeText(m.secure) + (Flag(m.www, "www.") + ("suno.com/playlist/" + (m.id + rest)))
  }

  /** The playlist pattern matched at the start of `url`: only the `suno.com` host, no `app.`. */
  function ParsePlaylistUrl(url: string): (r: Option<PlaylistUrl>)
    ensures r.Some? ==> IsUuidShape(r.value.id) && exists rest :: url == SpellPlaylistUrl(r.value, rest)
  {
    var sc :- Scheme(url);
    var (www, s1) := Opt(sc.1, "www.");
    var s2 :- Lit(s1, "suno.com/playlist/");
    var id :- RunExact(HexOrHyphen, 36, s2);
    var m := PlaylistUrl(sc.0, www, id);
    assert url == SpellPlaylistUrl(m, s2[36..]);
    Some(m)
  }

  /** `_match_id` for `SunoPlaylistIE`. */
  function PlaylistId(url: string): (r: Option<string>)
    ensures r.Some? ==> IsUuidShape(r.value)
  {
    match ParsePlaylistUrl(url)
    case None => None
    case Some(m) => Some(m.id)
  }

  /** `_match_id` yields `id` exactly when the URL spells some parts with that identifier. */
  lemma PlaylistIdIff(url: string, id: string)
    ensures PlaylistId(url) == Some(id) <==> IsUuidShape(id) && exists m: PlaylistUrl, rest :: m.id == id && url == SpellPlaylistUrl(m, rest)
  {
    if PlaylistId(url) == Some(id) {
      var m := ParsePlaylistUrl(url).value;
      var rest :| url == SpellPlaylistUrl(m, rest);
      assert m.id == id;
    }
    if IsUuidShape(id) && exists m: PlaylistUrl, rest :: m.id == id && url == SpellPlaylistUrl(m, rest) {
      var m: PlaylistUrl, rest :| m.id == id && url == SpellPlaylistUrl(m, rest);
      ParsePlaylistUrlComplete(m, rest);
    }
  }

  lemma ParsePlaylistUrlComplete(m: PlaylistUrl, rest: string)
    requires IsUuidShape(m.id)
    ensures ParsePlaylistUrl(SpellPlaylistUrl(m, rest)) == Some(m)
  {
    var s2 := "suno.com/playlist/" + (m.id + rest);
    var s1 := Flag(m.www, "www.") + s2;
    SchemeFound(m.secure, s1);
    if m.www { OptTaken("www.", s2); } else { OptSkipped("www.", s2); }
    LitFound("suno.com/playlist/", m.id + rest);
    assert (m.id + rest)[..36] == m.id;
  }

  /** A URL is recognised as a playlist with parts `m` exactly when the identifier has the right
      shape and the URL is the URL those parts spell, followed by anything. */
  lemma PlaylistUrlIff(url: string, m: PlaylistUrl)
    ensures ParsePlaylistUrl(url) == Some(m) <==> IsUuidShape(m.id) && exists rest :: url == SpellPlaylistUrl(m, rest)
  {
    if IsUuidShape(m.id) && exists rest :: url == SpellPlaylistUrl(m, rest) {
      var rest :| url == SpellPlaylistUrl(m, rest);
      ParsePlaylistUrlComplete(m, rest);
    }
  }

  /** The song host `suno.ai` and the `app.` subdomain are not playlist hosts. */
  lemma PlaylistHostIsSunoCom(secure: bool, www: bool, rest: string)
    ensures ParsePlaylistUrl(SchemeText(secure) + (Flag(www, "www.") + ("suno.ai/playlist/" + rest))).None?
    ensures ParsePlaylistUrl(SchemeText(secure) + (Flag(www, "www.") + ("app.suno.com/playlist/" + rest))).None?
  {
    var a := "suno.ai/playlist/" + rest;
    var b := "app.suno.com/playlist/" + rest;
    assert a[0] == 's' && a[5] == 'a';
    NotPlaylistHost(secure, www, a, 5);
    assert b[0] == 'a';
    NotPlaylistHost(secure, www, b, 0);
  }

  /** After the scheme and the optional `www.`, text that differs from `suno.com/playlist/` at
      position `i` is no playlist URL. */
  lemma NotPlaylistHost(secure: bool, www: bool, x: string, i: nat)
    requires i < |x| && i < |"suno.com/playlist/"| && x[i] != "suno.com/playlist/"[i] && x[0] != 'w'
    ensures ParsePlaylistUrl(SchemeText(secure) + (Flag(www, "www.") + x)).None?
  {
    SchemeFound(secure, Flag(www, "www.") + x);
    if www { OptTaken("www.", x); } else { OptSkipped("www.", x); }
  }

  // ---------------------------------------------------------------------------------------
  // SunoIE._real_extract

  const PendingMessage: string := "Video is pending and not yet available"

  /** Extract a song from its URL and its page. The pending check comes first; a pending key that
      is absent is no error. A missing duration aborts the whole extraction. */
  function ExtractSong(url: string, page: string, host: Host): (r: Result<Item, Failure>)
    ensures r == Failure(NoMatch) <==> SongId(url).None?
    ensures r == Failure(Expected(PendingMessage)) <==> SongId(url).Some? && IsPending(page)
    ensures r == Failure(RegexNotFound("duration")) <==>
      SongId(url).Some? && !IsPending(page) && Duration(page).None?
    ensures r.Success? <==> SongId(url).Some? && !IsPending(page) && Duration(page).Some?
    ensures r.Success? ==>
      && r.value.id == SongId(url).value
      && Duration(page) == Some(r.value.duration)
      && r.value.title == host.ogSearch("title", page)
      && r.value.description == host.ogSearch("description", page)
      && r.value.thumbnail == host.ogSearch("image", page)
      && r.value.formats == [Format(host.htmlMeta("og:audio", page)), Format(host.htmlMeta("og:video:url", page))]
  {
    match SongId(url)
    case None => Failure(NoMatch)
    case Some(id) =>
      if IsPending(page) then Failure(Expected(PendingMessage))
      else
        match Duration(page)
        case None => Failure(RegexNotFound("duration"))
        case Some(d) =>
          Success(Item(
            id,
            host.ogSearch("title", page),
            host.ogSearch("description", page),
            host.ogSearch("image", page),
            d,
            [Format(host.htmlMeta("og:audio", page)), Format(host.htmlMeta("og:video:url", page))]))
  }

  /** A song page whose pending key is followed by `true` yields the expected error and no
      record, whatever else the page holds. */
  lemma PendingPageAborts(m: SongUrl, tail: string, prefix: string, ws: string, rest: string, host: Host)
    requires IsUuidShape(m.id)
    requires NoMatchBefore(PendingPattern, prefix + Key("is_video_pending") + ws + "true" + rest, |prefix|)
    requires All(Space, ws)
    requires rest == [] || !In(Word, rest[0])
    ensures ExtractSong(SpellSongUrl(m, tail), prefix + Key("is_video_pending") + ws + "true" + rest, host)
      == Failure(Expected(PendingMessage))
  {
    var page := prefix + Key("is_video_pending") + ws + "true" + rest;
    ParseSongUrlComplete(m, tail);
    PendingWhenTrue(prefix, ws, rest);
    assert SongId(SpellSongUrl(m, tail)).Some? && IsPending(page);
  }

  /** A song page without the pending key is extracted as long as it carries a duration: the
      record has the URL's identifier and that duration. */
  lemma AbsentPendingKeyTolerated(m: SongUrl, tail: string, page: string, n: nat, host: Host)
    requires IsUuidShape(m.id)
    requires forall i :: 0 <= i <= |page| ==> !(Key("is_video_pending") <= page[i..])
    requires Duration(page) == Some(n)
    ensures var r := ExtractSong(SpellSongUrl(m, tail), page, host);
      r.Success? && r.value.id == m.id && r.value.duration == n && |r.value.formats| == 2
  {
    ParseSongUrlComplete(m, tail);
  }

  // ---------------------------------------------------------------------------------------
  // SunoPlaylistIE._real_extract

  /** `data\-clip\-id="([0-9a-fA-F-]{36})"` */
  const ClipPattern: Pattern := Attribute("data-clip-id", HexOrHyphen, 36)

  /** The song URL a playlist entry defers to. */
  function SongEntryUrl(id: string): string
  {
    "https://suno.com/song/" + id
  }

  function SongEntry(id: string): UrlResult
  {
    UrlResult(SongEntryUrl(id), SunoIE, id)
  }

  /** Extract a playlist from its URL and its page: one deferred song reference per clip
      attribute, in page order, duplicates kept. The scan itself never fails. */
  function ExtractPlaylist(url: string, page: string, host: Host): (r: Result<Playlist, Failure>)
    ensures r.Failure? <==> PlaylistId(url).None?
    ensures r.Failure? ==> r.error == NoMatch
    ensures r.Success? ==>
      && r.value.id == PlaylistId(url).value
      && r.value.title == host.ogSearch("title", page)
      && r.value.description == None
      && |r.value.entries| == |Findall(ClipPattern, page)|
      && forall k :: 0 <= k < |r.value.entries| ==>
           r.value.entries[k] == SongEntry(Findall(ClipPattern, page)[k])
  {
    match PlaylistId(url)
    case None => Failure(NoMatch)
    case Some(id) =>
      var clips := Findall(ClipPattern, page);
      Success(Playlist(id, host.ogSearch("title", page), None, seq(|clips|, k requires 0 <= k < |clips| => SongEntry(clips[k]))))
  }

  /** The attribute `data-clip-id="<id>"` as a page writes it. */
  function ClipAttr(id: string): string
  {
    "data-clip-id=\"" + id + "\""
  }

  /** A page fragment listing the clips `ids`, one attribute each, separated by spaces. */
  function ClipAttrs(ids: seq<string>): string
  {
    if ids == [] then "" else ClipAttr(ids[0]) + " " + ClipAttrs(ids[1..])
  }

  lemma ClipAttrMatches(id: string, s: string)
    requires IsUuidShape(id)
    ensures MatchAt(ClipPattern, ClipAttr(id) + s) == Some(Hit(id, 51))
  {
    var t := ClipAttr(id) + s;
    var k := "data-clip-id" + "=\"";
    assert t == k + (id + ("\"" + s));
    assert k <= t;
    assert t[|k|..] == id + ("\"" + s);
    assert t[|k|..][..36] == id;
    assert t[50] == '"';
  }

  /** Scanning the attributes of `ids` gives back `ids`: same count, same order, duplicates kept. */
  lemma {:induction false} ClipsFoundInOrder(ids: seq<string>)
    requires forall k :: 0 <= k < |ids| ==> IsUuidShape(ids[k])
    ensures Findall(ClipPattern, ClipAttrs(ids)) == ids
  {
    if ids != [] {
      var tail := ClipAttrs(ids[1..]);
      ClipAttrMatches(ids[0], " " + tail);
      assert ClipAttrs(ids) == ClipAttr(ids[0]) + (" " + tail);
      FindallStep(ClipPattern, ClipAttrs(ids));
      assert ClipAttrs(ids)[51..] == " " + tail;
      SkipPlain(ClipPattern, " ", tail);
      ClipsFoundInOrder(ids[1..]);
    }
  }

  /** A playlist page listing the clips `ids` yields one entry per clip, in order. */
  lemma PlaylistOfClips(url: string, ids: seq<string>, host: Host)
    requires PlaylistId(url).Some?
    requires forall k :: 0 <= k < |ids| ==> IsUuidShape(ids[k])
    ensures var r := ExtractPlaylist(url, ClipAttrs(ids), host);
      r.Success? && |r.value.entries| == |ids| &&
      forall k :: 0 <= k < |ids| ==> r.value.entries[k] == SongEntry(ids[k])
  {
    ClipsFoundInOrder(ids);
  }

  /** A clip listed twice is an entry twice. */
  lemma DuplicateClipsKept(url: string, id: string, host: Host)
    requires IsUuidShape(id) && PlaylistId(url).Some?
    ensures var r := ExtractPlaylist(url, ClipAttrs([id, id]), host);
      r.Success? && r.value.entries == [SongEntry(id), SongEntry(id)]
  {
    PlaylistOfClips(url, [id, id], host);
    var r := ExtractPlaylist(url, ClipAttrs([id, id]), host);
    assert r.value.entries[0] == SongEntry(id) && r.value.entries[1] == SongEntry(id);
  }

  /** Every entry URL is a song URL `SunoIE` accepts, and it yields the entry's identifier back. */
  lemma EntryUrlRoundTrip(id: string)
    requires IsUuidShape(id)
    ensures SongId(SongEntryUrl(id)) == Some(id)
  {
    var m := SongUrl(true, false, false, Com, Song, id);
    assert SpellSongUrl(m, []) == SongEntryUrl(id);
    ParseSongUrlComplete(m, []);
  }

  /** Every entry of an extracted playlist is bound to `SunoIE` and resolves to its own
      identifier. */
  lemma PlaylistEntriesResolve(url: string, page: string, host: Host)
    ensures var r := ExtractPlaylist(url, page, host);
      r.Success? ==> forall e | e in r.value.entries :: e.ie == SunoIE && SongId(e.url) == Some(e.videoId)
  {
    var r := ExtractPlaylist(url, page, host);
    if r.Success? {
      forall e | e in r.value.entries
        ensures e.ie == SunoIE && SongId(e.url) == Some(e.videoId)
      {
        var k :| 0 <= k < |r.value.entries| && r.value.entries[k] == e;
        var c := Findall(ClipPattern, page)[k];
        assert c in Findall(ClipPattern, page);
        EntryUrlRoundTrip(c);
      }
    }
  }

  /** Every entry of an extracted playlist comes from a `data-clip-id` attribute that the page
      spells out in full. */
  lemma PlaylistEntriesFromAttributes(url: string, page: string, host: Host)
    ensures var r := ExtractPlaylist(url, page, host);
      r.Success? ==> forall e | e in r.value.entries :: exists i: nat :: i <= |page| && ClipAttr(e.videoId) <= page[i..]
  {
    var r := ExtractPlaylist(url, page, host);
    if r.Success? {
      forall e | e in r.value.entries
        ensures exists i: nat :: i <= |page| && ClipAttr(e.videoId) <= page[i..]
      {
        var k :| 0 <= k < |r.value.entries| && r.value.entries[k] == e;
        var c := Findall(ClipPattern, page)[k];
        assert c in Findall(ClipPattern, page);
        ClipFoundInPage(page, c);
      }
    }
  }

  /** A clip identifier `re.findall` reports sits inside a full `data-clip-id` attribute of the page. */
  lemma ClipFoundInPage(page: string, c: string)
    requires c in Findall(ClipPattern, page)
    ensures exists i: nat :: i <= |page| && ClipAttr(c) <= page[i..]
  {
    FindallSound(ClipPattern, page, c);
    var i: nat :| MatchesAt(ClipPattern, page, i, c);
    AttributeFramed(page[i..], c);
  }

  /** A clip-attribute match with capture `c` starts with the whole attribute. */
  lemma AttributeFramed(t: string, c: string)
    requires MatchAt(ClipPattern, t).Some? && MatchAt(ClipPattern, t).value.capture == c
    ensures ClipAttr(c) <= t
  {
    var h := MatchAttribute("data-clip-id", HexOrHyphen, 36, t).value;
    assert t[..h.len] == "data-clip-id" + "=\"" + c + "\"" == ClipAttr(c);
  }
}

/** The two fields read from the escaped JSON blob a song page embeds: a literal-key scan,
    not a JSON parser. */
module InlineJson {
  import opened Wrappers
  import opened Text
  import opened Patterns

  /** `\\"duration\\":\s*(\d+)` */
  const DurationPattern: Pattern := KeyedRun("duration", Digit)

  /** `\\"is_video_pending\\":\s*(\w+)` */
  const PendingPattern: Pattern := KeyedRun("is_video_pending", Word)

  /** The duration in seconds: int() of the digit run after the leftmost duration key. */
  function Duration(page: string): (r: Option<nat>)
    ensures r.None? <==> NoMatchBefore(DurationPattern, page, |page| + 1)
  {
    SearchNoneIff(DurationPattern, page);
    match Search(DurationPattern, page)
    case None => None
    case Some(digits) => Some(DecimalValue(digits))
  }

  /** The page marks the song as pending: the word after the leftmost pending key is `true`. A
      page can only be pending when it carries the pending key somewhere. */
  predicate IsPending(page: string)
    ensures IsPending(page) ==> exists i :: 0 <= i <= |page| && Key("is_video_pending") <= page[i..]
  {
    SearchNoneIff(PendingPattern, page);
    Search(PendingPattern, page) == Some("true")
  }

  /** A keyed run is read whole after any white space, when the key is the leftmost place where
      the pattern matches. */
  lemma KeyedRunFound(name: string, cls: CharClass, prefix: string, ws: string, tok: string, rest: string)
    requires NoMatchBefore(KeyedRun(name, cls), prefix + Key(name) + ws + tok + rest, |prefix|)
    requires All(Space, ws)
    requires tok != [] && All(cls, tok) && !In(Space, tok[0])
    requires rest == [] || !In(cls, rest[0])
    ensures Search(KeyedRun(name, cls), prefix + Key(name) + ws + tok + rest) == Some(tok)
  {
    var s := Key(name) + (ws + (tok + rest));
    assert prefix + Key(name) + ws + tok + rest == prefix + s;
    KeyedRunAt(name, cls, ws, tok, rest);
    SearchAfter(KeyedRun(name, cls), prefix, s, Hit(tok, |Key(name)| + |ws| + |tok|));
  }

  /** The keyed run anchored at the key: the white space is skipped and the whole run is read. */
  lemma KeyedRunAt(name: string, cls: CharClass, ws: string, tok: string, rest: string)
    requires All(Space, ws)
    requires tok != [] && All(cls, tok) && !In(Space, tok[0])
    requires rest == [] || !In(cls, rest[0])
    ensures MatchAt(KeyedRun(name, cls), Key(name) + (ws + (tok + rest))) == Some(Hit(tok, |Key(name)| + |ws| + |tok|))
  {
    var k := Key(name);
    var after := ws + (tok + rest);
    assert k <= k + after;
    assert (k + after)[|k|..] == after;
    SpaceThenRun(cls, ws, tok, rest);
  }

  /** After the key, `\s*` takes exactly the white space and the class run exactly the token. */
  lemma SpaceThenRun(cls: CharClass, ws: string, tok: string, rest: string)
    requires All(Space, ws)
    requires tok != [] && All(cls, tok) && !In(Space, tok[0])
    requires rest == [] || !In(cls, rest[0])
    ensures TakeWhile(Space, ws + (tok + rest)) == ws
    ensures TakeWhile(cls, (ws + (tok + rest))[|ws|..]) == tok
  {
    TakeWhileStops(Space, ws, tok + rest);
    assert (ws + (tok + rest))[|ws|..] == tok + rest;
    TakeWhileStops(cls, tok, rest);
  }

  /** A page carrying `\"duration\": <n>` reports the duration `n`. */
  lemma DurationFound(prefix: string, ws: string, n: nat, rest: string)
    requires NoMatchBefore(DurationPattern, prefix + Key("duration") + ws + Decimal(n) + rest, |prefix|)
    requires All(Space, ws)
    requires rest == [] || !IsDigit(rest[0])
    ensures Duration(prefix + Key("duration") + ws + Decimal(n) + rest) == Some(n)
  {
    KeyedRunFound("duration", Digit, prefix, ws, Decimal(n), rest);
    DecimalRoundTrip(n);
  }

  /** The pending decision reads the word after the key: `true` makes the page pending, any
      other word (`false`, `null`, `trueish`) does not. */
  lemma PendingIffTrue(prefix: string, ws: string, tok: string, rest: string)
    requires NoMatchBefore(PendingPattern, prefix + Key("is_video_pending") + ws + tok + rest, |prefix|)
    requires All(Space, ws)
    requires tok != [] && All(Word, tok)
    requires rest == [] || !In(Word, rest[0])
    ensures IsPending(prefix + Key("is_video_pending") + ws + tok + rest) <==> tok == "true"
  {
    KeyedRunFound("is_video_pending", Word, prefix, ws, tok, rest);
  }

  /** The word `true` after the pending key makes the page pending. */
  lemma PendingWhenTrue(prefix: string, ws: string, rest: string)
    requires NoMatchBefore(PendingPattern, prefix + Key("is_video_pending") + ws + "true" + rest, |prefix|)
    requires All(Space, ws)
    requires rest == [] || !In(Word, rest[0])
    ensures IsPending(prefix + Key("is_video_pending") + ws + "true" + rest)
  {
    TrueIsWord();
    PendingIffTrue(prefix, ws, "true", rest);
  }

  lemma TrueIsWord()
    ensures All(Word, "true")
  {
  }
}

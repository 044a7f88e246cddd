/** The handful of regular expressions the extractors apply to page text, each re-expressed by
    hand. `MatchAt` is an anchored match at the start of a text (Python's `re.match`), `Search`
    is the capture of the leftmost match (`re.search(...).group(1)`), and `Findall` the captures
    of all non-overlapping matches from left to right (`re.findall`). */
module Patterns {
  import opened Wrappers
  import opened Text

  /** The two characters backslash and double quote, as the pages escape quotes in the JSON
      they embed inside a string. */
  const EscQuote: string := "\\\""

  /** The escaped JSON key `\"name\":`. */
  function Key(name: string): string { EscQuote + name + EscQuote + ":" }

  /** The shapes of the page patterns. Every one of them begins with a literal, so no match is
      empty. For `KeyedRun` the class never contains white space, so the greedy `\s*` in front of
      the run never has to give characters back. */
  datatype Pattern =
    | KeyedRun(name: string, cls: CharClass)               // \\"name\\":\s*(cls+)
    | KeyedList(name: string)                              // \\"name\\":\[(.*?)\]
    | Attribute(attr: string, cls: CharClass, width: nat)  // attr="(cls{width})"
    | Quoted                                               // \\"(.*?)\\"

  /** A match: the text of group 1 and the length of the whole match. */
  datatype Hit = Hit(capture: string, len: nat)

  /** The first character of every match of `p`. */
  function Lead(p: Pattern): char
  {
    match p
    case Attribute(attr, _, _) => (attr + "=\"")[0]
    case _ => '\\'
  }

  /** What any capture of `p` looks like. */
  predicate Captures(p: Pattern, c: string)
  {
    match p
    case KeyedRun(_, cls) => c != [] && All(cls, c)
    case KeyedList(_) => ']' !in c && '\n' !in c
    case Attribute(_, cls, width) => |c| == width && All(cls, c)
    case Quoted => '\n' !in c && NoEscQuote(c)
  }

  /** `c` contains no backslash-quote pair. */
  predicate NoEscQuote(c: string)
  {
    forall k :: 0 <= k < |c| ==> !(EscQuote <= c[k..])
  }

  /** The lazy `(.*?)` followed by the literal `close`: the shortest prefix of `t` that is
      followed by `close`, where `.` matches any character except a newline. */
  function UpTo(t: string, close: string): (r: Option<string>)
    ensures r.Some? ==> r.value + close <= t && '\n' !in r.value
    ensures r.Some? ==> forall k :: 0 <= k < |r.value| ==> !(close <= t[k..])
    ensures r.None? ==> forall k :: 0 <= k <= |t| && close <= t[k..] ==> '\n' in t[..k]
    decreases |t|
  {
    if close <= t then Some([])
    else if t == [] || t[0] == '\n' then None
    else
      match UpTo(t[1..], close)
      case None =>
        assert forall k :: 1 <= k <= |t| ==> t[k..] == t[1..][k - 1..] && t[..k] == [t[0]] + t[1..][..k - 1];
        None
      case Some(c) =>
        assert forall k :: 1 <= k <= |t| ==> t[k..] == t[1..][k - 1..];
        Some([t[0]] + c)
  }

  /** The match of `p` anchored at the start of `s`. */
  function MatchAt(p: Pattern, s: string): (r: Option<Hit>)
    ensures r.Some? ==> 0 < r.value.len <= |s| && Captures(p, r.value.capture)
    ensures s == [] || s[0] != Lead(p) ==> r.None?
  {
    match p
    case KeyedRun(name, cls) => MatchKeyedRun(name, cls, s)
    case KeyedList(name) => MatchKeyedList(name, s)
    case Attribute(attr, cls, width) => MatchAttribute(attr, cls, width, s)
    case Quoted => MatchQuoted(s)
  }

  /** The input spells the pattern's literals around the capture of `h`, which is where the match
      ends; a keyed run is moreover not followed by another character of its class. */
  ghost predicate Framed(p: Pattern, s: string, h: Hit)
    requires h.len <= |s|
  {
    match p
    case KeyedRun(name, cls) => exists ws :: SpellsKeyedRun(name, cls, s, h, ws)
    case KeyedList(name) => s[..h.len] == Key(name) + "[" + h.capture + "]"
    case Attribute(attr, _, _) => s[..h.len] == attr + "=\"" + h.capture + "\""
    case Quoted => s[..h.len] == EscQuote + h.capture + EscQuote
  }

  /** Wherever a pattern matches, the input spells the pattern's literals around the capture. */
  lemma MatchFramed(p: Pattern, s: string)
    requires MatchAt(p, s).Some?
    ensures Framed(p, s, MatchAt(p, s).value)
  {
    if p.KeyedRun? {
      KeyedRunSound(p.name, p.cls, s);
    }
  }

  /** `\\"name\\":\s*(cls+)`: the key, optional white space, then a greedy non-empty run. */
  function MatchKeyedRun(name: string, cls: CharClass, s: string): (r: Option<Hit>)
    ensures r.Some? ==> 0 < r.value.len <= |s| && Captures(KeyedRun(name, cls), r.value.capture)
    ensures s == [] || s[0] != '\\' ==> r.None?
  {
    var k := Key(name);
    if !(k <= s) then None
    else
      var rest := s[|k|..];
      var ws := TakeWhile(Space, rest);
      var tok := TakeWhile(cls, rest[|ws|..]);
      if tok == [] then None else Some(Hit(tok, |k| + |ws| + |tok|))
  }

  /** `\\"name\\":\[(.*?)\]`: the key and a bracket, then everything up to the first `]`. */
  function MatchKeyedList(name: string, s: string): (r: Option<Hit>)
    ensures r.Some? ==> 0 < r.value.len <= |s| && Captures(KeyedList(name), r.value.capture)
    ensures r.Some? ==> s[..r.value.len] == Key(name) + "[" + r.value.capture + "]"
    ensures s == [] || s[0] != '\\' ==> r.None?
  {
    var k := Key(name) + "[";
    if !(k <= s) then None
    else
      match UpTo(s[|k|..], "]")
      case None => None
      case Some(c) =>
        assert forall i :: 0 <= i < |c| ==> c[i] == s[|k|..][i..][0];
        Some(Hit(c, |k| + |c| + 1))
  }

  /** `attr="(cls{width})"`: the attribute, a quote, exactly `width` characters, a quote. */
  function MatchAttribute(attr: string, cls: CharClass, width: nat, s: string): (r: Option<Hit>)
    ensures r.Some? ==> 0 < r.value.len <= |s| && Captures(Attribute(attr, cls, width), r.value.capture)
    ensures r.Some? ==> s[..r.value.len] == attr + "=\"" + r.value.capture + "\""
    ensures s == [] || s[0] != Lead(Attribute(attr, cls, width)) ==> r.None?
  {
    var k := attr + "=\"";
    if !(k <= s) then None
    else
      assert s[0] == k[0];
      match RunExact(cls, width, s[|k|..])
      case None => None
      case Some(c) =>
        if |k| + width < |s| && s[|k| + width] == '"' then Some(Hit(c, |k| + width + 1)) else None
  }

  /** `\\"(.*?)\\"`: an escaped quote, then everything up to the next escaped quote. */
  function MatchQuoted(s: string): (r: Option<Hit>)
    ensures r.Some? ==> 0 < r.value.len <= |s| && Captures(Quoted, r.value.capture)
    ensures r.Some? ==> s[..r.value.len] == EscQuote + r.value.capture + EscQuote
    ensures s == [] || s[0] != '\\' ==> r.None?
  {
    if !(EscQuote <= s) then None
    else
      match UpTo(s[2..], EscQuote)
      case None => None
      case Some(c) =>
        assert forall i :: 0 <= i < |c| ==> c[i..] <= s[2..][i..];
        QuoteFrame(s, c);
        Some(Hit(c, 2 + |c| + 2))
  }

  /** A token found after an opening escaped quote is framed by escaped quotes in `s`. */
  lemma QuoteFrame(s: string, c: string)
    requires EscQuote <= s && c + EscQuote <= s[2..]
    ensures |c| + 4 <= |s| && s[..|c| + 4] == EscQuote + c + EscQuote
  {
    assert s[2..][..|c| + 2] == c + EscQuote;
    assert s[..|c| + 4] == s[..2] + s[2..][..|c| + 2];
  }

  /** `s` spells the key, the white space `ws` and the capture of `h`, and the capture is not
      followed by another character of its class. */
  predicate SpellsKeyedRun(name: string, cls: CharClass, s: string, h: Hit, ws: string)
  {
    All(Space, ws) && h.len <= |s| && s[..h.len] == Key(name) + ws + h.capture &&
    (h.len == |s| || !In(cls, s[h.len]))
  }

  /** A keyed run is matched only where the input spells the key, white space and the run, and
      the run is not followed by another character of its class. */
  lemma KeyedRunSound(name: string, cls: CharClass, s: string)
    requires MatchKeyedRun(name, cls, s).Some?
    ensures exists ws :: SpellsKeyedRun(name, cls, s, MatchKeyedRun(name, cls, s).value, ws)
  {
    var rest, ws, after, tok := KeyedRunPieces(name, cls, s);
    RunAfterKey(s, Key(name), rest, ws, after, tok, cls);
    assert SpellsKeyedRun(name, cls, s, Hit(tok, |Key(name)| + |ws| + |tok|), ws);
  }

  /** The pieces a keyed-run match is assembled from: what follows the key, the white space,
      what follows the white space, and the greedy run. */
  lemma KeyedRunPieces(name: string, cls: CharClass, s: string) returns (rest: string, ws: string, after: string, tok: string)
    requires MatchKeyedRun(name, cls, s).Some?
    ensures Key(name) <= s && rest == s[|Key(name)|..] && All(Space, ws)
    ensures |ws| <= |rest| && rest == ws + rest[|ws|..] && after == rest[|ws|..]
    ensures |tok| <= |after| && after == tok + after[|tok|..]
    ensures |tok| == |after| || !In(cls, after[|tok|])
    ensures MatchKeyedRun(name, cls, s).value == Hit(tok, |Key(name)| + |ws| + |tok|)
  {
    rest := s[|Key(name)|..];
    ws := TakeWhile(Space, rest);
    after := rest[|ws|..];
    tok := TakeWhile(cls, after);
  }

  /** Cutting `s` after a key, a white-space run and a maximal class run gives those pieces back. */
  lemma RunAfterKey(s: string, k: string, rest: string, ws: string, after: string, tok: string, cls: CharClass)
    requires k <= s && rest == s[|k|..]
    requires |ws| <= |rest| && rest == ws + rest[|ws|..] && after == rest[|ws|..]
    requires |tok| <= |after| && after == tok + after[|tok|..]
    requires |tok| == |after| || !In(cls, after[|tok|])
    ensures var n := |k| + |ws| + |tok|;
      n <= |s| && s[..n] == k + ws + tok && (n == |s| || !In(cls, s[n]))
  {
    var n := |k| + |ws| + |tok|;
    if n < |s| {
      assert after[|tok|] == s[n];
    }
    assert s[..n] == k + ws + tok;
  }

  /** The capture of the leftmost match of `p` in `s`, as `re.search` finds it. */
  function Search(p: Pattern, s: string): (r: Option<string>)
    ensures r.Some? ==> Captures(p, r.value)
    decreases |s|
  {
    match MatchAt(p, s)
    case Some(h) => Some(h.capture)
    case None => if s == [] then None else Search(p, s[1..])
  }

  /** The captures of all non-overlapping matches of `p` in `s`, left to right, as `re.findall`
      returns them: after a match the scan resumes where the match ended. */
  function Findall(p: Pattern, s: string): (r: seq<string>)
    ensures forall c | c in r :: Captures(p, c)
    ensures |r| <= |s|
    decreases |s|
  {
    match MatchAt(p, s)
    case Some(h) => [h.capture] + Findall(p, s[h.len..])
    case None => if s == [] then [] else Findall(p, s[1..])
  }

  /** No match of `p` starts before position `i` of `s`. */
  predicate NoMatchBefore(p: Pattern, s: string, i: nat)
  {
    forall j :: 0 <= j < i && j <= |s| ==> MatchAt(p, s[j..]).None?
  }

  lemma NoMatchBeforeTail(p: Pattern, s: string, i: nat)
    requires s != [] && 0 < i && NoMatchBefore(p, s, i)
    ensures NoMatchBefore(p, s[1..], i - 1)
  {
    forall j | 0 <= j < i - 1 && j <= |s[1..]|
      ensures MatchAt(p, s[1..][j..]).None?
    {
      assert s[1..][j..] == s[j + 1..];
    }
  }

  /** `re.search` reports the match at the leftmost position where `p` matches. */
  lemma {:induction false} SearchLeftmost(p: Pattern, s: string, i: nat)
    requires i <= |s| && NoMatchBefore(p, s, i) && MatchAt(p, s[i..]).Some?
    ensures Search(p, s) == Some(MatchAt(p, s[i..]).value.capture)
    decreases i
  {
    if i > 0 {
      assert MatchAt(p, s[0..]).None?;
      assert s[0..] == s;
      NoMatchBeforeTail(p, s, i);
      assert s[1..][i - 1..] == s[i..];
      SearchLeftmost(p, s[1..], i - 1);
    }
  }

  /** Position `i` of `s` starts a match of `p` whose capture is `c`. */
  predicate MatchesAt(p: Pattern, s: string, i: nat, c: string)
  {
    i <= |s| && MatchAt(p, s[i..]).Some? && MatchAt(p, s[i..]).value.capture == c
  }

  /** What `re.search` reports is the capture of a match at some position of the text. */
  lemma {:induction false} SearchSound(p: Pattern, s: string)
    requires Search(p, s).Some?
    ensures exists i: nat :: MatchesAt(p, s, i, Search(p, s).value)
    decreases |s|
  {
    assert s[0..] == s;
    if MatchAt(p, s).None? {
      SearchSound(p, s[1..]);
      var j: nat :| MatchesAt(p, s[1..], j, Search(p, s).value);
      assert s[1..][j..] == s[1 + j..];
      assert MatchesAt(p, s, 1 + j, Search(p, s).value);
    } else {
      assert MatchesAt(p, s, 0, Search(p, s).value);
    }
  }

  /** Every capture `re.findall` returns is the capture of a match at some position of the text. */
  lemma {:induction false} FindallSound(p: Pattern, s: string, c: string)
    requires c in Findall(p, s)
    ensures exists i: nat :: MatchesAt(p, s, i, c)
    decreases |s|
  {
    assert s[0..] == s;
    match MatchAt(p, s)
    case Some(h) =>
      if c == h.capture {
        assert MatchesAt(p, s, 0, c);
      } else {
        FindallSound(p, s[h.len..], c);
        var j: nat :| MatchesAt(p, s[h.len..], j, c);
        assert s[h.len..][j..] == s[h.len + j..];
        assert MatchesAt(p, s, h.len + j, c);
      }
    case None =>
      FindallSound(p, s[1..], c);
      var j: nat :| MatchesAt(p, s[1..], j, c);
      assert s[1..][j..] == s[1 + j..];
      assert MatchesAt(p, s, 1 + j, c);
  }

  /** `re.search` reports a match found right after `prefix` when nothing matches earlier. */
  lemma SearchAfter(p: Pattern, prefix: string, s: string, h: Hit)
    requires NoMatchBefore(p, prefix + s, |prefix|) && MatchAt(p, s) == Some(h)
    ensures Search(p, prefix + s) == Some(h.capture)
  {
    assert (prefix + s)[|prefix|..] == s;
    SearchLeftmost(p, prefix + s, |prefix|);
  }

  /** `re.search` fails exactly when `p` matches at no position. */
  lemma {:induction false} SearchNoneIff(p: Pattern, s: string)
    ensures Search(p, s).None? <==> NoMatchBefore(p, s, |s| + 1)
    decreases |s|
  {
    assert s[0..] == s;
    if MatchAt(p, s).None? && s != [] {
      SearchNoneIff(p, s[1..]);
      if NoMatchBefore(p, s, |s| + 1) {
        NoMatchBeforeTail(p, s, |s| + 1);
      }
      if NoMatchBefore(p, s[1..], |s|) {
        forall j | 0 < j <= |s| ensures MatchAt(p, s[j..]).None? {
          assert s[1..][j - 1..] == s[j..];
        }
      }
    }
  }

  /** `re.findall` starts with the capture at the leftmost match and continues after its end. */
  lemma FindallLeftmost(p: Pattern, s: string, i: nat, h: Hit)
    requires i <= |s| && NoMatchBefore(p, s, i) && MatchAt(p, s[i..]) == Some(h)
    ensures i + h.len <= |s| && Findall(p, s) == [h.capture] + Findall(p, s[i + h.len..])
  {
    FindallFrom(p, s, 0, i, h);
    assert s[0..] == s;
  }

  /** The same, for the scan started at position `j` of `s`. */
  lemma {:induction false} FindallFrom(p: Pattern, s: string, j: nat, i: nat, h: Hit)
    requires j <= i <= |s| && MatchAt(p, s[i..]) == Some(h)
    requires forall k :: j <= k < i ==> MatchAt(p, s[k..]).None?
    ensures i + h.len <= |s| && Findall(p, s[j..]) == [h.capture] + Findall(p, s[i + h.len..])
    decreases i - j
  {
    if j == i {
      FindallStep(p, s[i..]);
      assert s[i..][h.len..] == s[i + h.len..];
    } else {
      FindallFrom(p, s, j + 1, i, h);
      FindallSkipOne(p, s[j..]);
      assert s[j..][1..] == s[j + 1..];
    }
  }

  /** One step of the scan at a match. */
  lemma FindallStep(p: Pattern, s: string)
    requires MatchAt(p, s).Some?
    ensures Findall(p, s) == [MatchAt(p, s).value.capture] + Findall(p, s[MatchAt(p, s).value.len..])
  {
  }

  /** One step of the scan where nothing matches. */
  lemma FindallSkipOne(p: Pattern, s: string)
    requires s != [] && MatchAt(p, s).None?
    ensures Findall(p, s) == Findall(p, s[1..])
  {
  }

  /** `re.findall` returns nothing exactly when `p` matches at no position. */
  lemma {:induction false} FindallEmptyIff(p: Pattern, s: string)
    ensures Findall(p, s) == [] <==> NoMatchBefore(p, s, |s| + 1)
    decreases |s|
  {
    assert s[0..] == s;
    if MatchAt(p, s).None? && s != [] {
      FindallEmptyIff(p, s[1..]);
      if NoMatchBefore(p, s, |s| + 1) {
        NoMatchBeforeTail(p, s, |s| + 1);
      }
      if NoMatchBefore(p, s[1..], |s|) {
        forall j | 0 < j <= |s| ensures MatchAt(p, s[j..]).None? {
          assert s[1..][j - 1..] == s[j..];
        }
      }
    }
  }

  /** The capture `re.search` reports is the first one `re.findall` returns. */
  lemma {:induction false} SearchIsFirstFound(p: Pattern, s: string)
    ensures Search(p, s) == if Findall(p, s) == [] then None else Some(Findall(p, s)[0])
    decreases |s|
  {
    if MatchAt(p, s).None? && s != [] {
      SearchIsFirstFound(p, s[1..]);
    }
  }

  /** Text without the pattern's first character holds no match, so neither scan sees it. */
  lemma {:induction false} SkipPlain(p: Pattern, x: string, s: string)
    requires Lead(p) !in x
    ensures Search(p, x + s) == Search(p, s)
    ensures Findall(p, x + s) == Findall(p, s)
    decreases |x|
  {
    if x != [] {
      assert (x + s)[0] == x[0];
      assert (x + s)[1..] == x[1..] + s;
      SkipPlain(p, x[1..], s);
    } else {
      assert x + s == s;
    }
  }

  /** The lazy run stops at the first occurrence of a one-character `close`. */
  lemma {:induction false} UpToStopsAt(a: string, c: char, b: string)
    requires c !in a && '\n' !in a
    ensures UpTo(a + ([c] + b), [c]) == Some(a)
    decreases |a|
  {
    var t := a + ([c] + b);
    if a == [] {
      assert t == [c] + b;
    } else {
      assert t[0] == a[0];
      assert !([c] <= t) && t[0] != '\n';
      assert t[1..] == a[1..] + ([c] + b);
      UpToStopsAt(a[1..], c, b);
      assert [t[0]] + a[1..] == a;
    }
  }

  /** The lazy run stops at the first backslash-quote pair. */
  lemma {:induction false} UpToStopsAtEscQuote(a: string, b: string)
    requires '\n' !in a && NoEscQuote(a)
    ensures UpTo(a + (EscQuote + b), EscQuote) == Some(a)
    decreases |a|
  {
    var t := a + (EscQuote + b);
    if a == [] {
      assert t == EscQuote + b;
    } else {
      assert a[0..] == a;
      if |a| >= 2 {
        assert t[..2] == a[..2];
      } else {
        assert t[1] == '\\';
      }
      assert !(EscQuote <= t);
      assert t[1..] == a[1..] + (EscQuote + b);
      assert NoEscQuote(a[1..]) by {
        forall k | 0 <= k < |a[1..]| ensures !(EscQuote <= a[1..][k..]) {
          assert a[1..][k..] == a[k + 1..];
        }
      }
      UpToStopsAtEscQuote(a[1..], b);
      assert t[0] != '\n';
      assert [t[0]] + a[1..] == a;
    }
  }

  /** A quoted token `\"tok\"` is matched whole when the token holds no newline and no
      backslash-quote pair. */
  lemma QuotedAt(tok: string, x: string)
    requires '\n' !in tok && NoEscQuote(tok)
    ensures MatchAt(Quoted, EscQuote + (tok + (EscQuote + x))) == Some(Hit(tok, |tok| + 4))
  {
    var s := EscQuote + (tok + (EscQuote + x));
    assert EscQuote <= s;
    assert s[2..] == tok + (EscQuote + x);
    UpToStopsAtEscQuote(tok, x);
  }

  /** A character absent from the scanned text is absent from every quoted token found in it. */
  lemma {:induction false} QuotedTokensAvoid(s: string, ch: char)
    requires ch !in s
    ensures forall t | t in Findall(Quoted, s) :: ch !in t
    decreases |s|
  {
    match MatchAt(Quoted, s)
    case Some(h) =>
      var c := UpTo(s[2..], EscQuote).value;
      assert h.capture == c;
      assert forall i :: 0 <= i < |c| ==> c[i] == s[2 + i];
      assert forall i :: h.len <= i < |s| ==> s[h.len..][i - h.len] == s[i];
      QuotedTokensAvoid(s[h.len..], ch);
    case None =>
      if s != [] {
        assert forall i :: 1 <= i < |s| ==> s[1..][i - 1] == s[i];
        QuotedTokensAvoid(s[1..], ch);
      }
  }
}

/** The building blocks of the extractors' URL patterns, matched from the start of the URL as
    the host framework's `re.match` does: a literal, an optional literal `(?:lit)?`, and the
    scheme `https?://`. None of them ever has to backtrack in the patterns that use them, because
    the text that follows an optional literal never starts with that literal's first character. */
module UrlShape {
  import opened Wrappers

  /** The literal `lit` at the start of `s`, and what follows it. */
  function Lit(s: string, lit: string): (r: Option<string>)
    ensures r.Some? <==> lit <= s
    ensures r.Some? ==> s == lit + r.value
  {
    if lit <= s then Some(s[|lit|..]) else None
  }

  /** The greedy optional literal `(?:lit)?`: whether it was taken, and what follows. */
  function Opt(s: string, lit: string): (r: (bool, string))
    ensures r.0 <==> lit <= s
    ensures s == Flag(r.0, lit) + r.1
  {
    if lit <= s then (true, s[|lit|..]) else (false, s)
  }

  /** The text an optional literal contributes: the literal if taken, nothing otherwise. */
  function Flag(taken: bool, lit: string): string
  {
    if taken then lit else ""
  }

  function SchemeText(secure: bool): string
  {
    if secure then "https://" else "http://"
  }

  /** `https?://`: whether the scheme is secure, and what follows it. */
  function Scheme(url: string): (r: Option<(bool, string)>)
    ensures r.Some? ==> url == SchemeText(r.value.0) + r.value.1
  {
    if "https://" <= url then Some((true, url[8..]))
    else if "http://" <= url then Some((false, url[7..]))
    else None
  }

  lemma LitFound(lit: string, x: string)
    ensures Lit(lit + x, lit) == Some(x)
  {
    assert lit <= lit + x;
    assert (lit + x)[|lit|..] == x;
  }

  lemma OptTaken(lit: string, x: string)
    ensures Opt(lit + x, lit) == (true, x)
  {
    assert lit <= lit + x;
    assert (lit + x)[|lit|..] == x;
  }

  lemma OptSkipped(lit: string, x: string)
    requires lit != [] && (x == [] || x[0] != lit[0])
    ensures Opt(x, lit) == (false, x)
  {
  }

  lemma SchemeFound(secure: bool, x: string)
    ensures Scheme(SchemeText(secure) + x) == Some((secure, x))
  {
    var u := SchemeText(secure) + x;
    if secure {
      assert "https://" <= u;
      assert u[8..] == x;
    } else {
      assert u[4] == ':';
      assert "http://" <= u;
      assert u[7..] == x;
    }
  }
}

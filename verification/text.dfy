/** Characters, the character classes the extractors' patterns use, greedy runs of a class,
    and the decimal reading that Python's int() applies to a run of digits. */
module Text {
  import opened Wrappers

  /** The bracketed classes and escapes that occur in the patterns. `\w`, `\d` and `\s` are
      taken in their ASCII reading. */
  datatype CharClass =
    | HexOrHyphen     // [0-9a-fA-F-]
    | Alnum           // [0-9a-zA-Z]
    | AlnumOrHyphen   // [0-9a-zA-Z-]
    | Word            // \w
    | Digit           // \d
    | Space           // \s

  predicate IsDigit(c: char) { '0' <= c <= '9' }

  predicate IsLetter(c: char) { 'a' <= c <= 'z' || 'A' <= c <= 'Z' }

  predicate In(cls: CharClass, c: char)
  {
    match cls
    case HexOrHyphen => IsDigit(c) || 'a' <= c <= 'f' || 'A' <= c <= 'F' || c == '-'
    case Alnum => IsDigit(c) || IsLetter(c)
    case AlnumOrHyphen => IsDigit(c) || IsLetter(c) || c == '-'
    case Word => IsDigit(c) || IsLetter(c) || c == '_'
    case Digit => IsDigit(c)
    case Space => c == ' ' || c == '\t' || c == '\n' || c == '\r' || c == '\U{0B}' || c == '\U{0C}'
  }

  /** Every character of `s` belongs to `cls`. */
  predicate All(cls: CharClass, s: string)
  {
    forall i :: 0 <= i < |s| ==> In(cls, s[i])
  }

  /** The greedy run `cls*` at the start of `s`: the longest prefix made of `cls` characters. */
  function TakeWhile(cls: CharClass, s: string): (r: string)
    ensures |r| <= |s| && s == r + s[|r|..] && All(cls, r)
    ensures |r| == |s| || !In(cls, s[|r|])
    decreases |s|
  {
    if s == [] || !In(cls, s[0]) then []
    else
      var t := TakeWhile(cls, s[1..]);
      var r := [s[0]] + t;
      assert All(cls, r) by {
        forall i | 0 < i < |r| ensures In(cls, r[i]) {
          assert r[i] == t[i - 1];
        }
      }
      assert s[|r|..] == s[1..][|t|..];
      assert s == [s[0]] + s[1..];
      r
  }

  /** The greedy run is the only prefix of `s` that is made of `cls` characters and is not
      followed by one: a run `a` followed by a character outside the class is read back whole. */
  lemma {:induction false} TakeWhileStops(cls: CharClass, a: string, b: string)
    requires All(cls, a)
    requires b == [] || !In(cls, b[0])
    ensures TakeWhile(cls, a + b) == a
    decreases |a|
  {
    if a == [] {
      assert a + b == b;
    } else {
      assert (a + b)[1..] == a[1..] + b;
      TakeWhileStops(cls, a[1..], b);
    }
  }

  /** The identifier shape `[0-9a-fA-F-]{36}`: the layout of a UUID, not checked to be one. */
  predicate IsUuidShape(id: string)
  {
    |id| == 36 && All(HexOrHyphen, id)
  }

  /** The fixed-width run `cls{n}` at the start of `s`. */
  function RunExact(cls: CharClass, n: nat, s: string): (r: Option<string>)
    ensures r.Some? <==> n <= |s| && All(cls, s[..n])
    ensures r.Some? ==> r.value == s[..n] && s == r.value + s[n..]
  {
    if n <= |s| && All(cls, s[..n]) then Some(s[..n]) else None
  }

  /** The value Python's int() gives a non-empty run of ASCII digits (leading zeros allowed).
      A run of `k` digits stays below `10^k`. */
  function DecimalValue(s: string): (n: nat)
    requires All(Digit, s)
    ensures n < Pow10(|s|)
    decreases |s|
  {
    if s == [] then 0
    else
      var high := DecimalValue(s[..|s| - 1]);
      var digit := s[|s| - 1] as int - '0' as int;
      assert high * 10 + digit < Pow10(|s| - 1) * 10 by {
        assert high <= Pow10(|s| - 1) - 1;
        assert digit <= 9;
      }
      high * 10 + digit
  }

  function Pow10(k: nat): nat
  {
    if k == 0 then 1 else 10 * Pow10(k - 1)
  }

  /** The shortest decimal spelling of `n`: the text a page carries for an integer field. */
  function Decimal(n: nat): (s: string)
    ensures |s| > 0 && All(Digit, s)
    decreases n
  {
    var last := [('0' as int + n % 10) as char];
    if n < 10 then last else Decimal(n / 10) + last
  }

  /** Reading back the spelling of a number gives the number. */
  lemma {:induction false} DecimalRoundTrip(n: nat)
    ensures DecimalValue(Decimal(n)) == n
  {
    var s := Decimal(n);
    assert s[..|s| - 1] == (if n < 10 then [] else Decimal(n / 10));
    if n >= 10 {
      DecimalRoundTrip(n / 10);
    }
  }

  /** Leading zeros do not change the value, as with int("007"). */
  lemma {:induction false} LeadingZeroIgnored(s: string)
    requires All(Digit, s)
    ensures DecimalValue("0" + s) == DecimalValue(s)
    decreases |s|
  {
    if s != [] {
      var t := "0" + s;
      assert t[..|t| - 1] == "0" + s[..|s| - 1];
      LeadingZeroIgnored(s[..|s| - 1]);
    }
  }
}

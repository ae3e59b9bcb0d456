/**
 * Byte strings and the three PHP string primitives the stream decoder uses:
 * `trim` (default character list), `str_starts_with` and `explode("\n", ...)`.
 * PHP strings are byte strings, so text is a sequence of bytes here.
 */
module Text {

  newtype byte = b: int | 0 <= b < 256

  type Bytes = seq<byte>

  const LF: byte := 0x0A
  const Colon: byte := 0x3A

  /** The bytes `trim` strips by default: space, tab, LF, CR, NUL and vertical tab. */
  predicate IsTrimByte(b: byte) {
    b == 0x20 || b == 0x09 || b == 0x0A || b == 0x0D || b == 0x00 || b == 0x0B
  }

  predicate AllTrim(s: Bytes) {
    forall i :: 0 <= i < |s| ==> IsTrimByte(s[i])
  }

  lemma AllTrimAppend(a: Bytes, b: Bytes)
    requires AllTrim(a) && AllTrim(b)
    ensures AllTrim(a + b)
  {
    forall i | 0 <= i < |a + b|
      ensures IsTrimByte((a + b)[i])
    {
      if i >= |a| {
        assert (a + b)[i] == b[i - |a|];
      }
    }
  }

  /** Neither end of `s` is a byte that `trim` would strip. */
  predicate IsTrimmed(s: Bytes) {
    s == [] || (!IsTrimByte(s[0]) && !IsTrimByte(s[|s| - 1]))
  }

  /** The number of strippable bytes at the front of `s`. */
  function LeadingTrim(s: Bytes): (n: nat)
    ensures n <= |s| && AllTrim(s[..n])
    ensures n < |s| ==> !IsTrimByte(s[n])
  {
    if s != [] && IsTrimByte(s[0]) then
      var m := LeadingTrim(s[1..]);
      assert s[..1 + m] == [s[0]] + s[1..][..m];
      AllTrimAppend([s[0]], s[1..][..m]);
      1 + m
    else
      0
  }

  /** The number of strippable bytes at the back of `s`. */
  function TrailingTrim(s: Bytes): (n: nat)
    ensures n <= |s| && AllTrim(s[|s| - n..])
    ensures n < |s| ==> !IsTrimByte(s[|s| - 1 - n])
  {
    if s != [] && IsTrimByte(s[|s| - 1]) then
      var init := s[..|s| - 1];
      var m := TrailingTrim(init);
      assert s[|s| - (1 + m)..] == init[|init| - m..] + [s[|s| - 1]];
      AllTrimAppend(init[|init| - m..], [s[|s| - 1]]);
      1 + m
    else
      0
  }

  /** PHP `trim($s)`: `s` without its leading and trailing strippable bytes. */
  function Trim(s: Bytes): Bytes {
    var lead := LeadingTrim(s);
    var a := s[lead..];
    a[..|a| - TrailingTrim(a)]
  }

  /**
   * `s` is `Trim(s)` surrounded by strippable bytes, and `Trim(s)` itself
   * neither starts nor ends with one.  These two facts determine the result.
   */
  lemma TrimMeaning(s: Bytes)
    ensures IsTrimmed(Trim(s))
    ensures exists i :: 0 <= i <= |s| - |Trim(s)| && s[i..i + |Trim(s)|] == Trim(s)
                        && AllTrim(s[..i]) && AllTrim(s[i + |Trim(s)|..])
  {
    var lead := LeadingTrim(s);
    var a := s[lead..];
    var trail := TrailingTrim(a);
    var r := a[..|a| - trail];
    assert r == Trim(s);
    assert s[lead..lead + |r|] == r;
    assert s[lead + |r|..] == a[|a| - trail..];
  }

  lemma TrimTrimmed(s: Bytes)
    requires IsTrimmed(s)
    ensures Trim(s) == s
  {
    if s != [] {
      assert LeadingTrim(s) == 0;
      assert TrailingTrim(s) == 0;
    }
  }

  /** PHP `str_starts_with($s, $prefix)`. */
  predicate StartsWith(s: Bytes, prefix: Bytes) {
    |prefix| <= |s| && s[..|prefix|] == prefix
  }

  /** Glue `parts` back together with a line feed between neighbours (PHP `implode("\n", ...)`). */
  function Join(parts: seq<Bytes>): Bytes
  {
    if parts == [] then []
    else if |parts| == 1 then parts[0]
    else parts[0] + [LF] + Join(parts[1..])
  }

  /**
   * PHP `explode("\n", $s)`: the pieces between line feeds, at least one
   * (the empty string gives one empty piece), none holding a line feed, and
   * joining them with line feeds gives back `s`.
   */
  function Split(s: Bytes): (parts: seq<Bytes>)
    ensures |parts| >= 1
    ensures Join(parts) == s
    ensures forall i :: 0 <= i < |parts| ==> LF !in parts[i]
  {
    if s == [] then [[]]
    else
      var rest := Split(s[1..]);
      if s[0] == LF then
        assert s == [LF] + s[1..];
        [[]] + rest
      else
        var parts := [[s[0]] + rest[0]] + rest[1..];
        assert parts[1..] == rest[1..];
        assert s == [s[0]] + s[1..];
        parts
  }

  /** A text without line feeds is a single piece. */
  lemma {:induction false} SplitWithoutLF(s: Bytes)
    requires LF !in s
    ensures Split(s) == [s]
  {
    if s != [] {
      SplitWithoutLF(s[1..]);
      assert s == [s[0]] + s[1..];
    }
  }
}

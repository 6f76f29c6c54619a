/**
 * The PHP string primitives the importers rely on: trim(), empty() on a
 * CSV field, and str_pad(..., STR_PAD_LEFT).
 */
module Php {

  /** The characters trim() strips by default: space, tab, LF, CR, NUL and vertical tab. */
  predicate IsTrimmable(c: char) {
    c == ' ' || c == '\t' || c == '\n' || c == '\r' || c == '\0' || c == '\U{B}'
  }

  /** ltrim(): drops the longest trimmable prefix. */
  function TrimStart(s: string): (r: string)
    ensures r == [] || !IsTrimmable(r[0])
    ensures s == [] || !IsTrimmable(s[0]) ==> r == s
    decreases |s|
  {
    if s != [] && IsTrimmable(s[0]) then TrimStart(s[1..]) else s
  }

  /** rtrim(): drops the longest trimmable suffix. */
  function TrimEnd(s: string): (r: string)
    ensures |r| <= |s|
    ensures r == [] || (!IsTrimmable(r[|r| - 1]) && r[0] == s[0])
    ensures s == [] || !IsTrimmable(s[|s| - 1]) ==> r == s
    decreases |s|
  {
    if s != [] && IsTrimmable(s[|s| - 1]) then TrimEnd(s[..|s| - 1]) else s
  }

  /** trim(): a string with no trimmable character at either end. */
  function Trim(s: string): (r: string)
    ensures r == [] || (!IsTrimmable(r[0]) && !IsTrimmable(r[|r| - 1]))
    ensures s == [] || (!IsTrimmable(s[0]) && !IsTrimmable(s[|s| - 1])) ==> r == s
  {
    TrimEnd(TrimStart(s))
  }

  /** ltrim() keeps a suffix of the string and drops only trimmable characters. */
  lemma {:induction false} TrimStartDropsPrefix(s: string)
    ensures |TrimStart(s)| <= |s|
    ensures TrimStart(s) == s[|s| - |TrimStart(s)|..]
    ensures forall j :: 0 <= j < |s| - |TrimStart(s)| ==> IsTrimmable(s[j])
    decreases |s|
  {
    if s != [] && IsTrimmable(s[0]) {
      var r := TrimStart(s);
      TrimStartDropsPrefix(s[1..]);
      assert s[1..][|s| - 1 - |r|..] == s[|s| - |r|..];
      forall j | 0 <= j < |s| - |r| ensures IsTrimmable(s[j]) {
        if j > 0 {
          assert s[j] == s[1..][j - 1];
        }
      }
    }
  }

  /** rtrim() keeps a prefix of the string and drops only trimmable characters. */
  lemma {:induction false} TrimEndDropsSuffix(s: string)
    ensures |TrimEnd(s)| <= |s|
    ensures TrimEnd(s) == s[..|TrimEnd(s)|]
    ensures forall j :: |TrimEnd(s)| <= j < |s| ==> IsTrimmable(s[j])
    decreases |s|
  {
    if s != [] && IsTrimmable(s[|s| - 1]) {
      var p, r := s[..|s| - 1], TrimEnd(s);
      TrimEndDropsSuffix(p);
      assert p[..|r|] == s[..|r|];
      forall j | |r| <= j < |s| ensures IsTrimmable(s[j]) {
        if j < |s| - 1 {
          assert s[j] == p[j];
        }
      }
    }
  }

  /**
   * trim() keeps one contiguous run of the string, starting where ltrim()
   * stops, and everything it drops on either side is trimmable.
   */
  lemma TrimKeepsMiddle(s: string)
    ensures |TrimStart(s)| <= |s| && |s| - |TrimStart(s)| + |Trim(s)| <= |s|
    ensures Trim(s) == s[|s| - |TrimStart(s)|..|s| - |TrimStart(s)| + |Trim(s)|]
    ensures forall j :: 0 <= j < |s| - |TrimStart(s)| ==> IsTrimmable(s[j])
    ensures forall j :: |s| - |TrimStart(s)| + |Trim(s)| <= j < |s| ==> IsTrimmable(s[j])
  {
    var t := TrimStart(s);
    TrimStartDropsPrefix(s);
    TrimEndDropsSuffix(t);
    var i, r := |s| - |t|, TrimEnd(t);
    assert r == t[..|r|] == s[i..i + |r|];
    forall j | i + |r| <= j < |s| ensures IsTrimmable(s[j]) {
      assert s[j] == t[j - i];
    }
  }

  /** PHP empty() on a string: true for "" and for "0". */
  predicate Empty(s: string) {
    s == "" || s == "0"
  }

  /** empty($row[i]): an absent field is empty too, and raises no warning. */
  predicate EmptyField(row: seq<string>, i: nat) {
    i >= |row| || Empty(row[i])
  }

  /** How many bytes a character takes in UTF-8. */
  function Utf8Width(c: char): nat {
    if c as int < 0x80 then 1
    else if c as int < 0x800 then 2
    else if c as int < 0x1_0000 then 3
    else 4
  }

  /** strlen(): PHP strings are byte strings, here holding UTF-8 text. */
  function ByteLength(s: string): (n: nat)
    ensures n >= |s|
  {
    if s == [] then 0 else Utf8Width(s[0]) + ByteLength(s[1..])
  }

  predicate IsAscii(c: char) {
    c as int < 0x80
  }

  /**
   * str_pad(s, width, pad, STR_PAD_LEFT) with a one-byte pad string: width
   * counts bytes, so a multi-byte character leaves room for fewer pads.
   */
  function PadLeft(s: string, width: nat, pad: char): (r: string)
    requires IsAscii(pad)
    ensures |r| >= |s| && r[|r| - |s|..] == s
    ensures forall i :: 0 <= i < |r| - |s| ==> r[i] == pad
    ensures |r| - |s| == if ByteLength(s) >= width then 0 else width - ByteLength(s)
    ensures ByteLength(r) == if ByteLength(s) >= width then ByteLength(s) else width
  {
    var n := if ByteLength(s) >= width then 0 else width - ByteLength(s);
    var run := seq(n, _ => pad);
    AsciiRunBytes(pad, n);
    ByteLengthAppend(run, s);
    assert (run + s)[n..] == s;
    run + s
  }

  /** strlen(a . b) == strlen(a) + strlen(b). */
  lemma {:induction false} ByteLengthAppend(a: string, b: string)
    ensures ByteLength(a + b) == ByteLength(a) + ByteLength(b)
    decreases |a|
  {
    if a == [] {
      assert a + b == b;
    } else {
      assert (a + b)[0] == a[0] && (a + b)[1..] == a[1..] + b;
      ByteLengthAppend(a[1..], b);
    }
  }

  /** n copies of a one-byte character take n bytes. */
  lemma {:induction false} AsciiRunBytes(c: char, n: nat)
    requires IsAscii(c)
    ensures ByteLength(seq(n, _ => c)) == n
  {
    if n > 0 {
      assert seq(n, _ => c)[1..] == seq(n - 1, _ => c);
      AsciiRunBytes(c, n - 1);
    }
  }

  /** A string already as many bytes as the target comes back unchanged. */
  lemma PadLeftWide(s: string, width: nat, pad: char)
    requires IsAscii(pad) && ByteLength(s) >= width
    ensures PadLeft(s, width, pad) == s
  {
    var r := PadLeft(s, width, pad);
    assert r == r[|r| - |s|..];
  }

  /**
   * Left-padding cannot tell a short string from the same string with one
   * more leading pad character: both pad to the same string.
   */
  lemma {:induction false} PadLeftAbsorbsPad(s: string, width: nat, pad: char)
    requires IsAscii(pad) && ByteLength(s) < width
    ensures PadLeft(s, width, pad) == PadLeft([pad] + s, width, pad)
  {
    var a, b := PadLeft(s, width, pad), PadLeft([pad] + s, width, pad);
    assert ([pad] + s)[1..] == s;
    var n := |a| - |s|;
    assert |b| == |a|;
    forall i | 0 <= i < |a| ensures a[i] == b[i] {
      if i < n - 1 {
      } else if i == n - 1 {
        assert b[i] == ([pad] + s)[0];
      } else {
        assert a[i] == a[n..][i - n];
        assert b[i] == b[n - 1..][i - (n - 1)];
      }
    }
  }
}

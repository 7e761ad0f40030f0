/** File-name arithmetic the sorter relies on: lower-casing, the extension
    (`suffix`) and the rest of the name (`stem`) as pathlib splits them, and the
    decimal rendering of the collision counter. */
module Names {

  /** Lower-casing of one character (ASCII letters only). */
  function LowerChar(c: char): char {
    if 'A' <= c <= 'Z' then (c as int - 'A' as int + 'a' as int) as char else c
  }

  /** `str.lower()`, restricted to ASCII letters. */
  function Lower(s: string): string {
    seq(|s|, i requires 0 <= i < |s| => LowerChar(s[i]))
  }

  /** A name without capitals is its own lower-cased form. */
  lemma LowerOfLowerCase(s: string)
    requires forall i :: 0 <= i < |s| ==> !('A' <= s[i] <= 'Z')
    ensures Lower(s) == s
  {
  }

  /** `str.rfind(c)`: the index of the last occurrence of `c`, or -1. */
  function RFind(s: string, c: char): (r: int)
    ensures -1 <= r < |s|
    ensures r >= 0 ==> s[r] == c
    ensures forall j :: r < j < |s| ==> s[j] != c
  {
    if |s| == 0 then -1
    else if s[|s| - 1] == c then |s| - 1
    else RFind(s[..|s| - 1], c)
  }

  /** True when pathlib treats the dot at `i` as the start of a suffix: it is
      neither the first nor the last character of the name. */
  predicate SplitsAt(name: string, i: int) {
    0 < i < |name| - 1
  }

  /** `PurePath.suffix`: from the last dot on, unless that dot leads or ends the
      name, in which case there is no suffix. */
  function Suffix(name: string): (r: string)
    ensures |r| <= |name|
    ensures r == name[|name| - |r|..]
    ensures r != [] ==> r[0] == '.' && 1 < |r| < |name|
    ensures forall j :: 0 < j < |r| ==> r[j] != '.'
  {
    var i := RFind(name, '.');
    if SplitsAt(name, i) then name[i..] else ""
  }

  /** `PurePath.stem`: the name without its suffix. */
  function Stem(name: string): (r: string)
    ensures r + Suffix(name) == name
  {
    var i := RFind(name, '.');
    if SplitsAt(name, i) then name[..i] else name
  }

  /** Appending characters other than `c` does not move the last `c`. */
  lemma {:induction false} RFindPast(prefix: string, tail: string, c: char)
    requires c !in tail
    ensures RFind(prefix + tail, c) == RFind(prefix, c)
    decreases |tail|
  {
    if |tail| > 0 {
      var s := prefix + tail;
      assert s[..|s| - 1] == prefix + tail[..|tail| - 1];
      assert s[|s| - 1] == tail[|tail| - 1];
      RFindPast(prefix, tail[..|tail| - 1], c);
    } else {
      assert prefix + tail == prefix;
    }
  }

  /** A non-empty stem followed by a dot and at least one dot-free character
      splits back into that stem and that suffix. */
  lemma SplitJoin(stem: string, ext: string)
    requires |stem| > 0 && |ext| >= 2 && ext[0] == '.' && '.' !in ext[1..]
    ensures Suffix(stem + ext) == ext && Stem(stem + ext) == stem
  {
    var name := stem + ext;
    assert name == (stem + ".") + ext[1..];
    RFindPast(stem + ".", ext[1..], '.');
    assert RFind(stem + ".", '.') == |stem|;
  }

  /** Finding the last dot commutes with lower-casing. */
  lemma {:induction false} RFindLower(s: string)
    ensures RFind(Lower(s), '.') == RFind(s, '.')
    decreases |s|
  {
    if |s| > 0 {
      var n := |s| - 1;
      assert Lower(s)[..n] == Lower(s[..n]);
      assert Lower(s)[n] == LowerChar(s[n]);
      RFindLower(s[..n]);
    }
  }

  /** The suffix of the lower-cased name is the lower-cased suffix: the
      marker key of a file and its extension agree. */
  lemma SuffixOfLower(name: string)
    ensures Suffix(Lower(name)) == Lower(Suffix(name))
  {
    RFindLower(name);
    var i := RFind(name, '.');
    if SplitsAt(name, i) {
      assert Lower(name)[i..] == Lower(name[i..]);
    }
  }

  /** The character for a decimal digit. */
  function DigitChar(d: nat): (c: char)
    requires d < 10
    ensures '0' <= c <= '9'
  {
    ('0' as int + d) as char
  }

  predicate IsDigits(s: string) {
    forall i :: 0 <= i < |s| ==> '0' <= s[i] <= '9'
  }

  /** Python's `str(n)` for a natural number. */
  function Decimal(n: nat): (r: string)
    ensures |r| >= 1
    ensures IsDigits(r)
    decreases n
  {
    if n < 10 then [DigitChar(n)] else Decimal(n / 10) + [DigitChar(n % 10)]
  }

  /** Reads a string of decimal digits back as a number. */
  function ParseDecimal(s: string): nat
    requires IsDigits(s)
    decreases |s|
  {
    if |s| == 0 then 0
    else ParseDecimal(s[..|s| - 1]) * 10 + (s[|s| - 1] as int - '0' as int)
  }

  /** `Decimal` loses no information. */
  lemma {:induction false} DecimalRoundTrip(n: nat)
    ensures ParseDecimal(Decimal(n)) == n
    decreases n
  {
    if n >= 10 {
      var s := Decimal(n);
      assert s[..|s| - 1] == Decimal(n / 10);
      DecimalRoundTrip(n / 10);
    }
  }

  /** Distinct counters render as distinct strings. */
  lemma DecimalInjective(a: nat, b: nat)
    requires Decimal(a) == Decimal(b)
    ensures a == b
  {
    DecimalRoundTrip(a);
    DecimalRoundTrip(b);
  }
}

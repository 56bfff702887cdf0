/**
 * The parts of Rust's string and integer library that the core relies on:
 * `str::trim`, `str::split`, `str::split_once`, `[&str]::join`, `u16::from_str`,
 * the decimal `Display` of unsigned integers and the UTF-8 byte length of a `str`.
 * A Rust `String` is modelled as a sequence of Unicode scalar values (`string`).
 */
module Text {
  import opened Wrappers

  type U16 = x: int | 0 <= x <= 0xFFFF
  type U32 = x: int | 0 <= x <= 0xFFFF_FFFF

  // ---------------------------------------------------------------------------
  // Whitespace and trimming

  /** Rust's `char::is_whitespace`: the characters with the Unicode White_Space property. */
  predicate IsWhitespace(c: char) {
    || ('\U{9}' <= c <= '\U{D}')
    || c == ' '
    || c == '\U{85}'
    || c == '\U{A0}'
    || c == '\U{1680}'
    || ('\U{2000}' <= c <= '\U{200A}')
    || c == '\U{2028}'
    || c == '\U{2029}'
    || c == '\U{202F}'
    || c == '\U{205F}'
    || c == '\U{3000}'
  }

  predicate AllWhitespace(s: string) {
    forall k :: 0 <= k < |s| ==> IsWhitespace(s[k])
  }

  /** `str::trim_start`: the suffix left after dropping leading whitespace. */
  function TrimStart(s: string): (r: string)
    ensures |r| <= |s| && r == s[|s| - |r|..]
    ensures AllWhitespace(s[..|s| - |r|])
    ensures r != [] ==> !IsWhitespace(r[0])
  {
    if s != [] && IsWhitespace(s[0]) then
      var r := TrimStart(s[1..]);
      assert s[..|s| - |r|] == [s[0]] + s[1..][..|s| - 1 - |r|];
      assert s[|s| - |r|..] == s[1..][|s| - 1 - |r|..];
      r
    else s
  }

  /** `str::trim_end`: the prefix left after dropping trailing whitespace. */
  function TrimEnd(s: string): (r: string)
    ensures |r| <= |s| && r == s[..|r|]
    ensures AllWhitespace(s[|r|..])
    ensures r != [] ==> !IsWhitespace(r[|r| - 1])
  {
    if s != [] && IsWhitespace(s[|s| - 1]) then
      var r := TrimEnd(s[..|s| - 1]);
      assert s[|r|..] == s[..|s| - 1][|r|..] + [s[|s| - 1]];
      r
    else s
  }

  /** `str::trim`: drop whitespace at both ends. */
  function Trim(s: string): string {
    TrimEnd(TrimStart(s))
  }

  /** A non-empty trimmed text starts and ends with a non-whitespace character. */
  lemma TrimEdges(s: string)
    ensures Trim(s) != [] ==> !IsWhitespace(Trim(s)[0]) && !IsWhitespace(Trim(s)[|Trim(s)| - 1])
  {
    var u := TrimStart(s);
    if Trim(s) != [] {
      assert Trim(s)[0] == u[0];
    }
  }

  /** A text with no whitespace at either end is its own trim. */
  lemma TrimOfTrimmed(s: string)
    requires s != [] ==> !IsWhitespace(s[0]) && !IsWhitespace(s[|s| - 1])
    ensures Trim(s) == s
  {
  }

  lemma TrimIdempotent(s: string)
    ensures Trim(Trim(s)) == Trim(s)
  {
    TrimEdges(s);
    TrimOfTrimmed(Trim(s));
  }

  /** Trimming leaves nothing exactly when the text is all whitespace. */
  lemma TrimEmptyIff(s: string)
    ensures Trim(s) == [] <==> AllWhitespace(s)
  {
    if AllWhitespace(s) {
      TrimStartAllWhitespace(s);
    }
    var u := TrimStart(s);
    if TrimEnd(u) == [] {
      assert s == s[..|s| - |u|] + u;
    }
  }

  lemma {:induction false} TrimStartAllWhitespace(s: string)
    requires AllWhitespace(s)
    ensures TrimStart(s) == []
  {
    if s != [] {
      TrimStartAllWhitespace(s[1..]);
    }
  }

  // ---------------------------------------------------------------------------
  // Splitting and joining

  /** Position of the first occurrence of `c` in `s`. */
  function IndexOf(s: string, c: char): (i: nat)
    requires c in s
    ensures i < |s| && s[i] == c
    ensures forall j :: 0 <= j < i ==> s[j] != c
  {
    if s[0] == c then 0 else 1 + IndexOf(s[1..], c)
  }

  /** `[&str]::join`: the parts with `sep` between neighbours. */
  function Join(parts: seq<string>, sep: string): string {
    if |parts| == 0 then []
    else if |parts| == 1 then parts[0]
    else parts[0] + sep + Join(parts[1..], sep)
  }

  /** Joining one more part appends the separator and the part. */
  lemma {:induction false} JoinSnoc(parts: seq<string>, last: string, sep: string)
    requires parts != []
    ensures Join(parts + [last], sep) == Join(parts, sep) + sep + last
    decreases |parts|
  {
    if |parts| == 1 {
      assert (parts + [last])[1..] == [last];
    } else {
      assert (parts + [last])[1..] == parts[1..] + [last];
      JoinSnoc(parts[1..], last, sep);
    }
  }

  /** `str::split(sep)`: every piece between separators, empty pieces included. */
  function Split(s: string, sep: char): (r: seq<string>)
    ensures |r| >= 1
    ensures forall i :: 0 <= i < |r| ==> sep !in r[i]
    ensures Join(r, [sep]) == s
    decreases |s|
  {
    if sep in s then
      var i := IndexOf(s, sep);
      var rest := Split(s[i + 1..], sep);
      assert s == s[..i] + [sep] + s[i + 1..];
      [s[..i]] + rest
    else
      [s]
  }

  /** Splitting undoes joining when no part holds the separator. */
  lemma {:induction false} SplitJoin(parts: seq<string>, sep: char)
    requires |parts| >= 1
    requires forall i :: 0 <= i < |parts| ==> sep !in parts[i]
    ensures Split(Join(parts, [sep]), sep) == parts
  {
    if |parts| > 1 {
      var rest := Join(parts[1..], [sep]);
      var s := parts[0] + [sep] + rest;
      var k := |parts[0]|;
      assert Join(parts, [sep]) == s;
      IndexOfAfter(parts[0], sep, rest);
      assert s[..k] == parts[0];
      assert s[k + 1..] == rest;
      assert s[k] == sep;
      assert Split(s, sep) == [parts[0]] + Split(rest, sep);
      SplitJoin(parts[1..], sep);
      assert parts == [parts[0]] + parts[1..];
    }
  }

  /** The first separator in `a + [c] + b` is the one after `a` when `a` has none. */
  lemma IndexOfAfter(a: string, c: char, b: string)
    requires c !in a
    ensures IndexOf(a + [c] + b, c) == |a|
  {
    var s := a + [c] + b;
    var i := IndexOf(s, c);
    assert s[|a|] == c;
    assert forall j :: 0 <= j < |a| ==> s[j] == a[j];
  }

  /** `str::split_once(sep)`: the text before and after the first separator. */
  function SplitOnce(s: string, sep: char): (r: Option<(string, string)>)
    ensures r.None? <==> sep !in s
    ensures r.Some? ==> r.value.0 + [sep] + r.value.1 == s && sep !in r.value.0
  {
    if sep in s then
      var i := IndexOf(s, sep);
      assert s == s[..i] + [sep] + s[i + 1..];
      Some((s[..i], s[i + 1..]))
    else None
  }

  /** `split_once` cuts at the first separator. */
  lemma SplitOnceAt(a: string, sep: char, b: string)
    requires sep !in a
    ensures SplitOnce(a + [sep] + b, sep) == Some((a, b))
  {
    var s := a + [sep] + b;
    IndexOfAfter(a, sep, b);
    assert s[..|a|] == a && s[|a| + 1..] == b;
  }

  /** A join of non-empty parts starts with the first part's first character and ends with the last part's last. */
  lemma {:induction false} JoinEdges(parts: seq<string>, sep: string)
    requires |parts| >= 1 && forall i :: 0 <= i < |parts| ==> parts[i] != []
    ensures Join(parts, sep) != []
    ensures Join(parts, sep)[0] == parts[0][0]
    ensures Join(parts, sep)[|Join(parts, sep)| - 1] == parts[|parts| - 1][|parts[|parts| - 1]| - 1]
  {
    if |parts| > 1 {
      JoinEdges(parts[1..], sep);
      var rest := Join(parts[1..], sep);
      assert Join(parts, sep) == parts[0] + sep + rest;
    }
  }

  // ---------------------------------------------------------------------------
  // Decimal numbers

  predicate IsDigit(c: char) {
    '0' <= c <= '9'
  }

  predicate AllDigits(s: string) {
    forall k :: 0 <= k < |s| ==> IsDigit(s[k])
  }

  function DigitChar(d: nat): (c: char)
    requires d < 10
    ensures IsDigit(c)
  {
    (d + '0' as int) as char
  }

  /** The value of a string of decimal digits, most significant first. */
  function DigitsValue(ds: string): nat
    requires AllDigits(ds)
  {
    if ds == [] then 0
    else DigitsValue(ds[..|ds| - 1]) * 10 + (ds[|ds| - 1] as int - '0' as int)
  }

  /** The decimal `Display` of an unsigned integer: no sign, no leading zeros. */
  function ShowNat(n: nat): (r: string)
    ensures r != [] && AllDigits(r)
    ensures |r| > 1 ==> r[0] != '0'
    ensures DigitsValue(r) == n
  {
    if n < 10 then [DigitChar(n)]
    else
      var r := ShowNat(n / 10) + [DigitChar(n % 10)];
      assert r[..|r| - 1] == ShowNat(n / 10);
      r
  }

  /** Distinct numbers are written differently. */
  lemma ShowNatInjective(m: nat, n: nat)
    requires ShowNat(m) == ShowNat(n)
    ensures m == n
  {
  }

  /**
   * `u16::from_str`: an optional leading `+`, then one or more ASCII digits
   * whose value is at most 65535. Anything else (an empty text, a lone `+`, a
   * `-`, whitespace, any other character, a value above 65535) is rejected.
   */
  function ParseU16(t: string): (r: Option<U16>)
    ensures r.Some? ==> '-' !in t && ',' !in t && !(exists k :: 0 <= k < |t| && IsWhitespace(t[k]))
  {
    var digits := if |t| > 0 && t[0] == '+' then t[1..] else t;
    if digits == [] || !AllDigits(digits) then None
    else
      var v := DigitsValue(digits);
      if v <= 0xFFFF then
        assert forall k :: 0 <= k < |t| ==> t[k] == '+' || IsDigit(t[k]) by {
          forall k | 0 <= k < |t| ensures t[k] == '+' || IsDigit(t[k]) {
            if t[0] == '+' && k > 0 { assert t[k] == digits[k - 1]; }
          }
        }
        Some(v)
      else None
  }

  /** Parsing the decimal display of a 16-bit value gives that value back, with or without `+`. */
  lemma ParseShowU16(n: U16)
    ensures ParseU16(ShowNat(n)) == Some(n)
    ensures ParseU16("+" + ShowNat(n)) == Some(n)
  {
    assert ("+" + ShowNat(n))[1..] == ShowNat(n);
  }

  /** A decimal display above 65535 is rejected: `u16::from_str` reports overflow. */
  lemma ParseShowTooLarge(n: nat)
    requires n > 0xFFFF
    ensures ParseU16(ShowNat(n)) == None
  {
  }

  // ---------------------------------------------------------------------------
  // UTF-8 lengths

  /** Number of bytes UTF-8 uses for a character. */
  function Utf8Width(c: char): (w: nat)
    ensures 1 <= w <= 4
  {
    if c as int < 0x80 then 1
    else if c as int < 0x800 then 2
    else if c as int < 0x1_0000 then 3
    else 4
  }

  /** `str::len`: the length in UTF-8 bytes. */
  function ByteLen(s: string): nat {
    if s == [] then 0 else Utf8Width(s[0]) + ByteLen(s[1..])
  }

  lemma {:induction false} ByteLenAppend(a: string, b: string)
    ensures ByteLen(a + b) == ByteLen(a) + ByteLen(b)
  {
    if a != [] {
      assert (a + b)[0] == a[0];
      assert (a + b)[1..] == a[1..] + b;
      ByteLenAppend(a[1..], b);
    } else {
      assert a + b == b;
    }
  }

  lemma {:induction false} ByteLenAtLeastLength(s: string)
    ensures ByteLen(s) >= |s|
  {
    if s != [] {
      ByteLenAtLeastLength(s[1..]);
    }
  }

  predicate IsAscii(s: string) {
    forall k :: 0 <= k < |s| ==> s[k] as int < 0x80
  }

  lemma {:induction false} ByteLenAscii(s: string)
    requires IsAscii(s)
    ensures ByteLen(s) == |s|
  {
    if s != [] {
      ByteLenAscii(s[1..]);
    }
  }

  /**
   * The number of characters whose UTF-8 encoding takes exactly `k` bytes,
   * or None when byte `k` is not a character boundary of `s` (where Rust's
   * `&s[..k]` panics).
   */
  function CharIndexAt(s: string, k: nat): (r: Option<nat>)
    ensures r.Some? ==> r.value <= |s| && ByteLen(s[..r.value]) == k
    ensures r.None? ==> forall i :: 0 <= i <= |s| ==> ByteLen(s[..i]) != k
  {
    if k == 0 then
      assert ByteLen(s[..0]) == 0;
      Some(0)
    else if s == [] then None
    else if k < Utf8Width(s[0]) then
      assert forall i :: 1 <= i <= |s| ==> ByteLen(s[..i]) >= Utf8Width(s[0]) by {
        forall i | 1 <= i <= |s| ensures ByteLen(s[..i]) >= Utf8Width(s[0]) {
          assert s[..i][0] == s[0];
        }
      }
      None
    else
      var rest := CharIndexAt(s[1..], k - Utf8Width(s[0]));
      assert forall i :: 1 <= i <= |s| ==> ByteLen(s[..i]) == Utf8Width(s[0]) + ByteLen(s[1..][..i - 1]) by {
        forall i | 1 <= i <= |s| ensures ByteLen(s[..i]) == Utf8Width(s[0]) + ByteLen(s[1..][..i - 1]) {
          assert s[..i][1..] == s[1..][..i - 1];
        }
      }
      match rest
      case Some(i) => Some(i + 1)
      case None => None
  }

  /**
   * The largest number of leading characters that fit in `k` bytes
   * (Rust's `str::floor_char_boundary`, counted in characters).
   */
  function FloorCharIndex(s: string, k: nat): (i: nat)
    ensures i <= |s| && ByteLen(s[..i]) <= k
    ensures i < |s| ==> ByteLen(s[..i + 1]) > k
  {
    if s == [] || Utf8Width(s[0]) > k then
      assert s != [] ==> s[..1][1..] == [];
      0
    else
      var j := FloorCharIndex(s[1..], k - Utf8Width(s[0]));
      assert s[..j + 1][1..] == s[1..][..j];
      assert j + 1 < |s| ==> s[..j + 2][1..] == s[1..][..j + 1];
      j + 1
  }

  /** Where byte `k` is a character boundary, both ways of cutting agree. */
  lemma {:induction false} CharIndexAtIsFloor(s: string, k: nat)
    requires CharIndexAt(s, k).Some?
    ensures CharIndexAt(s, k).value == FloorCharIndex(s, k)
  {
    if k != 0 && s != [] && k >= Utf8Width(s[0]) {
      CharIndexAtIsFloor(s[1..], k - Utf8Width(s[0]));
    }
  }

  /** In ASCII text every byte position up to its length is a boundary. */
  lemma {:induction false} CharIndexAtAscii(s: string, k: nat)
    requires IsAscii(s) && k <= |s|
    ensures CharIndexAt(s, k) == Some(k)
  {
    if k != 0 {
      CharIndexAtAscii(s[1..], k - 1);
    }
  }
}

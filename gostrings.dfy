/**
 * The pieces of Go's `strings`, `path` and `fmt` packages that the library
 * uses, on strings of characters: trimming, the extension of a slash-separated
 * path, ASCII lower-casing, and the zero-padded lower-case hex of `%016x`.
 */
module GoStrings {
  import opened Os

  /** `strings.TrimRight(s, cutset)`: the longest prefix of `s` that does not
      end in a character of `cutset`; everything cut off is in `cutset`. */
  function TrimRight(s: string, cutset: set<char>): (r: string)
    ensures r <= s
    ensures r == [] || r[|r| - 1] !in cutset
    ensures forall i | |r| <= i < |s| :: s[i] in cutset
    decreases |s|
  {
    if s != [] && s[|s| - 1] in cutset then TrimRight(s[..|s| - 1], cutset) else s
  }

  /** `strings.TrimPrefix(s, prefix)` */
  function TrimPrefix(s: string, prefix: string): (r: string)
    ensures prefix <= s ==> prefix + r == s
    ensures !(prefix <= s) ==> r == s
  {
    if prefix <= s then s[|prefix|..] else s
  }

  /** `i` is the position of the dot that starts the extension of `p`: the
      last dot of the final slash-separated element of `p`. */
  predicate ExtDot(p: string, i: int)
  {
    0 <= i < |p| && p[i] == '.' && forall j | i < j < |p| :: p[j] != '/' && p[j] != '.'
  }

  /** At most one position of a path starts its extension. */
  lemma ExtDotUnique(p: string, i: int, k: int)
    requires ExtDot(p, i) && ExtDot(p, k)
    ensures i == k
  {
  }

  /** `path.Ext(p)`: the suffix of `p` from the last dot of its final
      element, or "" when that element has no dot. */
  function Ext(p: string): (e: string)
    ensures forall i | ExtDot(p, i) :: e == p[i..]
    ensures (forall i | 0 <= i < |p| :: !ExtDot(p, i)) ==> e == ""
    decreases |p|
  {
    if p == [] || p[|p| - 1] == '/' then ""
    else if p[|p| - 1] == '.' then assert ExtDot(p, |p| - 1); p[|p| - 1..]
    else
      var q := p[..|p| - 1];
      var e := Ext(q);
      assert forall i | 0 <= i < |q| :: ExtDot(p, i) == ExtDot(q, i);
      if e == "" then "" else e + [p[|p| - 1]]
  }

  /** `unicode.ToLower` restricted to ASCII. */
  function LowerChar(c: char): (r: char)
    ensures 'A' <= c <= 'Z' ==> r as int == c as int + 32
    ensures !('A' <= c <= 'Z') ==> r == c
  {
    if 'A' <= c <= 'Z' then (c as int + 32) as char else c
  }

  /** `strings.ToLower` restricted to ASCII: maps each character on its own. */
  function Lower(s: string): (r: string)
    ensures |r| == |s|
    ensures forall i | 0 <= i < |s| :: r[i] == LowerChar(s[i])
  {
    seq(|s|, i requires 0 <= i < |s| => LowerChar(s[i]))
  }

  // ---------------------------------------------------------------------------
  // Hexadecimal, as `fmt` writes it for the verb `%016x`

  const HexDigits: string := "0123456789abcdef"

  predicate IsLowerHex(s: string)
  {
    forall i | 0 <= i < |s| :: s[i] in HexDigits
  }

  function Pow16(n: nat): (r: nat)
    ensures r > 0
  {
    if n == 0 then 1 else 16 * Pow16(n - 1)
  }

  /** The value of one lower-case hex digit. */
  function DigitValue(c: char): (d: nat)
    ensures d < 16
  {
    if '0' <= c <= '9' then (c as int - '0' as int)
    else if 'a' <= c <= 'f' then (c as int - 'a' as int) + 10
    else 0
  }

  /** Reads a string of lower-case hex digits, most significant first. */
  function ParseHex(s: string): (v: nat)
    ensures v < Pow16(|s|)
  {
    if s == [] then 0 else 16 * ParseHex(s[..|s| - 1]) + DigitValue(s[|s| - 1])
  }

  /** The last `width` hex digits of `v`, zero-padded on the left. */
  function HexFixed(v: nat, width: nat): (s: string)
    ensures |s| == width && IsLowerHex(s)
  {
    if width == 0 then "" else HexFixed(v / 16, width - 1) + [HexDigits[v % 16]]
  }

  lemma {:induction false} HexFixedRoundTrip(v: nat, width: nat)
    requires v < Pow16(width)
    ensures ParseHex(HexFixed(v, width)) == v
  {
    if width > 0 {
      var s := HexFixed(v, width);
      assert s[..|s| - 1] == HexFixed(v / 16, width - 1);
      assert DigitValue(s[|s| - 1]) == v % 16;
      HexFixedRoundTrip(v / 16, width - 1);
    }
  }

  lemma Pow16Of16()
    ensures Pow16(16) == TwoTo64
  {
    assert Pow16(2) == 0x100;
    assert Pow16(4) == 0x1_0000;
    assert Pow16(6) == 0x100_0000;
    assert Pow16(8) == 0x1_0000_0000;
    assert Pow16(10) == 0x100_0000_0000;
    assert Pow16(12) == 0x1_0000_0000_0000;
    assert Pow16(14) == 0x100_0000_0000_0000;
  }

  /** `fmt.Sprintf("%016x", v)`: since v < 16^16, always exactly sixteen
      lower-case hex digits, which read back as `v`. */
  function Hex16(v: uint64): (s: string)
    ensures |s| == 16 && IsLowerHex(s)
    ensures ParseHex(s) == v
  {
    Pow16Of16();
    HexFixedRoundTrip(v, 16);
    HexFixed(v, 16)
  }
}

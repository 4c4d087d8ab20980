/** Unpadded standard base64: section 4 of RFC 4648, with the padding omitted as section 3.2 allows. */
module Base64 {
  import opened Prelude

  type Byte = x: int | 0 <= x < 256

  type Sextet = x: int | 0 <= x < 64

  function CharOf(v: Sextet): char {
    if v < 26 then 'A' + v as char
    else if v < 52 then 'a' + (v - 26) as char
    else if v < 62 then '0' + (v - 52) as char
    else if v == 62 then '+' else '/'
  }

  function SextetOf(c: char): Option<Sextet> {
    if 'A' <= c <= 'Z' then Some(c as int - 'A' as int)
    else if 'a' <= c <= 'z' then Some(c as int - 'a' as int + 26)
    else if '0' <= c <= '9' then Some(c as int - '0' as int + 52)
    else if c == '+' then Some(62)
    else if c == '/' then Some(63)
    else None
  }

  lemma CharReadsBack(v: Sextet)
    ensures SextetOf(CharOf(v)) == Some(v)
    ensures CharOf(v) != '$' && CharOf(v) != '\r' && CharOf(v) != '\n'
  {
  }

  /** The characters of one group of one, two or three bytes. */
  function EncodeGroup(b: seq<Byte>): (r: seq<Sextet>)
    requires 1 <= |b| <= 3
    ensures |r| == |b| + 1
  {
    if |b| == 1 then [b[0] / 4, b[0] % 4 * 16]
    else if |b| == 2 then [b[0] / 4, b[0] % 4 * 16 + b[1] / 16, b[1] % 16 * 4]
    else [b[0] / 4, b[0] % 4 * 16 + b[1] / 16, b[1] % 16 * 4 + b[2] / 64, b[2] % 64]
  }

  function DecodeGroup(v: seq<Sextet>): (r: seq<Byte>)
    requires 2 <= |v| <= 4
    ensures |r| == |v| - 1
  {
    var b0: Byte := v[0] as int * 4 + v[1] as int / 16;
    if |v| == 2 then [b0]
    else
      var b1: Byte := v[1] as int % 16 * 16 + v[2] as int / 4;
      if |v| == 3 then [b0, b1]
      else
        var b2: Byte := v[2] as int % 4 * 64 + v[3] as int;
        [b0, b1, b2]
  }

  /** A sextet put together from the low end of one byte and the high end of the next comes apart again. */
  lemma PartsComeApart(high: nat, low: nat)
    ensures low < 16 ==> (high * 16 + low) / 16 == high && (high * 16 + low) % 16 == low
    ensures low < 4 ==> (high * 4 + low) / 4 == high && (high * 4 + low) % 4 == low
  {
  }

  lemma GroupReadsBack(b: seq<Byte>)
    requires 1 <= |b| <= 3
    ensures DecodeGroup(EncodeGroup(b)) == b
  {
    var v := EncodeGroup(b);
    PartsComeApart(b[0] % 4, if |b| == 1 then 0 else b[1] / 16);
    assert DecodeGroup(v)[0] == b[0];
    if |b| > 1 {
      PartsComeApart(b[1] % 16, if |b| == 2 then 0 else b[2] / 64);
      assert DecodeGroup(v)[1] == b[1];
    }
    if |b| > 2 { assert DecodeGroup(v)[2] == b[2]; }
  }

  function Chars(v: seq<Sextet>): (s: string)
    ensures |s| == |v| && forall i :: 0 <= i < |v| ==> s[i] == CharOf(v[i])
  {
    seq(|v|, i requires 0 <= i < |v| => CharOf(v[i]))
  }

  function EncodeToString(b: seq<Byte>): string {
    if b == [] then ""
    else if |b| <= 3 then Chars(EncodeGroup(b))
    else Chars(EncodeGroup(b[..3])) + EncodeToString(b[3..])
  }

  /** The values of a group of characters, if all are in the alphabet. */
  function Sextets(s: string): (r: Option<seq<Sextet>>)
    ensures r.Some? ==> |r.value| == |s|
  {
    if s == "" then Some([])
    else match (SextetOf(s[0]), Sextets(s[1..]))
      case (Some(v), Some(rest)) => Some([v] + rest)
      case _ => None
  }

  /** Line breaks are skipped wherever they stand. */
  function DropLineBreaks(s: string): string {
    if s == "" then ""
    else (if s[0] == '\r' || s[0] == '\n' then "" else [s[0]]) + DropLineBreaks(s[1..])
  }

  /** A last group of one character is an error; spare bits at the end are ignored. */
  function DecodeGroups(s: string): Option<seq<Byte>> {
    if s == "" then Some([])
    else if |s| == 1 then None
    else
      var n := if |s| < 4 then |s| else 4;
      match (Sextets(s[..n]), DecodeGroups(s[n..]))
      case (Some(v), Some(rest)) => Some(DecodeGroup(v) + rest)
      case _ => None
  }

  function DecodeString(s: string): Option<seq<Byte>> {
    DecodeGroups(DropLineBreaks(s))
  }

  lemma {:induction false} SextetsReadBack(v: seq<Sextet>)
    ensures Sextets(Chars(v)) == Some(v)
  {
    if v != [] {
      CharReadsBack(v[0]);
      SextetsReadBack(v[1..]);
      assert Chars(v)[1..] == Chars(v[1..]);
      assert [v[0]] + v[1..] == v;
    }
  }

  lemma {:induction false} GroupsReadBack(b: seq<Byte>)
    ensures DecodeGroups(EncodeToString(b)) == Some(b)
    decreases |b|
  {
    if b != [] {
      var n := if |b| <= 3 then |b| else 3;
      var group, rest := EncodeGroup(b[..n]), EncodeToString(b[n..]);
      assert b[..|b|] == b;
      assert EncodeToString(b) == Chars(group) + rest;
      assert EncodeToString(b)[..|group|] == Chars(group) && EncodeToString(b)[|group|..] == rest;
      SextetsReadBack(group);
      GroupReadsBack(b[..n]);
      GroupsReadBack(b[n..]);
      assert b == b[..n] + b[n..];
    }
  }

  lemma {:induction false} OnlyAlphabet(b: seq<Byte>, i: nat)
    requires i < |EncodeToString(b)|
    ensures SextetOf(EncodeToString(b)[i]).Some?
    decreases |b|
  {
    var n := if |b| <= 3 then |b| else 3;
    var group := EncodeGroup(b[..n]);
    assert b[..|b|] == b;
    if i < |group| {
      CharReadsBack(group[i]);
      assert EncodeToString(b)[i] == CharOf(group[i]);
    } else {
      OnlyAlphabet(b[n..], i - |group|);
    }
  }

  lemma {:induction false} NoLineBreaks(s: string)
    requires forall i :: 0 <= i < |s| ==> s[i] != '\r' && s[i] != '\n'
    ensures DropLineBreaks(s) == s
  {
    if s != "" { NoLineBreaks(s[1..]); }
  }

  /** What was encoded decodes to the same bytes, and no separator or line break is ever printed. */
  lemma DecodeOfEncode(b: seq<Byte>)
    ensures DecodeString(EncodeToString(b)) == Some(b)
    ensures forall i :: 0 <= i < |EncodeToString(b)| ==> EncodeToString(b)[i] != '$'
  {
    var s := EncodeToString(b);
    forall i | 0 <= i < |s| ensures SextetOf(s[i]).Some? { OnlyAlphabet(b, i); }
    NoLineBreaks(s);
    GroupsReadBack(b);
  }
}

/** Unpadded base64url, section 5 of RFC 4648. */
module Base64 {
  import opened Wrappers
  import opened Bytes

  /** The 64 characters, by value. */
  function Char(v: nat): char
    requires v < 64
  {
    if v < 26 then 'A' + v as char
    else if v < 52 then 'a' + (v - 26) as char
    else if v < 62 then '0' + (v - 52) as char
    else if v == 62 then '-' else '_'
  }

  function ValueOf(c: char): (v: Option<nat>)
    ensures v.Some? ==> v.value < 64 && Char(v.value) == c
  {
    if 'A' <= c <= 'Z' then Some((c - 'A') as nat)
    else if 'a' <= c <= 'z' then Some(26 + (c - 'a') as nat)
    else if '0' <= c <= '9' then Some(52 + (c - '0') as nat)
    else if c == '-' then Some(62)
    else if c == '_' then Some(63)
    else None
  }

  /** The alphabet of the standard, table 2: the ends of its runs, and that each run is consecutive. */
  lemma Alphabet()
    ensures Char(0) == 'A' && Char(25) == 'Z' && Char(26) == 'a' && Char(51) == 'z'
    ensures Char(52) == '0' && Char(61) == '9' && Char(62) == '-' && Char(63) == '_'
    ensures forall v: nat :: v < 61 && v != 25 && v != 51 ==> Char(v + 1) as int == Char(v) as int + 1
  {
  }

  lemma CharRoundTrip(v: nat)
    requires v < 64
    ensures ValueOf(Char(v)) == Some(v) && Char(v) != '.'
  {
  }

  /** The values of the characters of one group. */
  function GroupValues(b: seq<byte>): (v: seq<nat>)
    requires 1 <= |b| <= 3
    ensures |v| == |b| + 1 && forall k :: 0 <= k < |v| ==> v[k] < 64
  {
    if |b| == 1 then [b[0] / 4, b[0] % 4 * 16]
    else if |b| == 2 then [b[0] / 4, b[0] % 4 * 16 + b[1] / 16, b[1] % 16 * 4]
    else [b[0] / 4, b[0] % 4 * 16 + b[1] / 16, b[1] % 16 * 4 + b[2] / 64, b[2] % 64]
  }

  function Chars(v: seq<nat>): (s: string)
    requires forall k :: 0 <= k < |v| ==> v[k] < 64
    ensures |s| == |v| && forall k :: 0 <= k < |s| ==> s[k] == Char(v[k])
  {
    seq(|v|, k requires 0 <= k < |v| => Char(v[k]))
  }

  /** Three bytes make four characters; one or two left over make two or three. */
  function Encode(b: seq<byte>): string {
    if b == [] then ""
    else
      var n := if |b| < 3 then |b| else 3;
      Chars(GroupValues(b[..n])) + Encode(b[n..])
  }

  /** One byte, two or three from as many bits; the bits left over are ignored. */
  function Group(v: seq<nat>): seq<byte>
    requires 2 <= |v| <= 4 && forall k :: 0 <= k < |v| ==> v[k] < 64
  {
    [v[0] * 4 + v[1] / 16]
    + (if |v| >= 3 then [v[1] % 16 * 16 + v[2] / 4] else [])
    + (if |v| == 4 then [v[2] % 4 * 64 + v[3]] else [])
  }

  function Values(s: string): Option<seq<nat>> {
    if s == "" then Some([])
    else match (ValueOf(s[0]), Values(s[1..]))
      case (Some(v), Some(vs)) => Some([v] + vs)
      case _ => None
  }

  /** None for a character outside the alphabet, or one character too many. */
  function Decode(s: string): Option<seq<byte>> {
    if s == "" then Some([])
    else
      var n := if |s| < 4 then |s| else 4;
      match (Values(s[..n]), Decode(s[n..]))
      case (Some(v), Some(rest)) =>
        if n >= 2 && |v| == n && (forall k :: 0 <= k < n ==> v[k] < 64) then Some(Group(v) + rest) else None
      case _ => None
  }

  lemma {:induction false} ValuesOfChars(v: seq<nat>, s: string)
    requires |s| == |v| && forall k :: 0 <= k < |v| ==> v[k] < 64 && s[k] == Char(v[k])
    ensures Values(s) == Some(v)
  {
    if v != [] {
      CharRoundTrip(v[0]);
      ValuesOfChars(v[1..], s[1..]);
      assert v == [v[0]] + v[1..];
    }
  }

  lemma DecodeGroup(v: seq<nat>, s: string, rest: string, b: seq<byte>)
    requires 2 <= |v| <= 4 && |s| == |v| && forall k :: 0 <= k < |v| ==> v[k] < 64 && s[k] == Char(v[k])
    requires |v| < 4 ==> rest == ""
    requires Decode(rest) == Some(b)
    ensures Decode(s + rest) == Some(Group(v) + b)
  {
    ValuesOfChars(v, s);
    assert (s + rest)[..|v|] == s && (s + rest)[|v|..] == rest;
  }

  /** The characters of a group hold its bits, most significant first, filled up with zeros. */
  lemma GroupBits(b: seq<byte>)
    requires 1 <= |b| <= 3
    ensures var v := GroupValues(b);
      && (|b| == 1 ==> v[0] * 64 + v[1] == b[0] as int * 16)
      && (|b| == 2 ==> (v[0] * 64 + v[1]) * 64 + v[2] == (b[0] as int * 256 + b[1]) * 4)
      && (|b| == 3 ==> ((v[0] * 64 + v[1]) * 64 + v[2]) * 64 + v[3] == (b[0] as int * 256 + b[1]) * 256 + b[2])
  {
  }

  lemma GroupRoundTrip(b: seq<byte>)
    requires 1 <= |b| <= 3
    ensures Group(GroupValues(b)) == b
  {
    var g := Group(GroupValues(b));
    assert g[0] == b[0];
    assert |b| > 1 ==> g[1] == b[1];
    assert |b| > 2 ==> g[2] == b[2];
  }

  lemma CharsHaveNoDot(v: seq<nat>)
    requires forall k :: 0 <= k < |v| ==> v[k] < 64
    ensures '.' !in Chars(v)
  {
    forall k | 0 <= k < |v| ensures Chars(v)[k] != '.' {
      CharRoundTrip(v[k]);
    }
  }

  /** Decoding an encoding gives the bytes back, whatever their number. */
  lemma {:induction false} RoundTrip(b: seq<byte>)
    ensures Decode(Encode(b)) == Some(b)
    ensures '.' !in Encode(b)
  {
    if b != [] {
      var n := if |b| < 3 then |b| else 3;
      var v := GroupValues(b[..n]);
      RoundTrip(b[n..]);
      assert n < 3 ==> b[n..] == [];
      DecodeGroup(v, Chars(v), Encode(b[n..]), b[n..]);
      GroupRoundTrip(b[..n]);
      assert b == b[..n] + b[n..];
      CharsHaveNoDot(v);
    }
  }
}

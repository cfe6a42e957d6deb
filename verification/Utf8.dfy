/** UTF-8 (section 3 of RFC 3629): encoding, decoding with errors ignored, and bounded text. */
module Utf8 {

  type byte = b: nat | b < 256

  /** The bytes of one code point. */
  function EncodeChar(c: char): (bs: seq<byte>)
    ensures 1 <= |bs| <= 4
  {
    var n := c as int;
    if n < 0x80 then [n]
    else if n < 0x800 then [0xC0 + n / 64, 0x80 + n % 64]
    else if n < 0x10000 then [0xE0 + n / 4096, 0x80 + n / 64 % 64, 0x80 + n % 64]
    else [0xF0 + n / 262144, 0x80 + n / 4096 % 64, 0x80 + n / 64 % 64, 0x80 + n % 64]
  }

  function Encode(s: string): seq<byte> {
    if s == "" then [] else EncodeChar(s[0]) + Encode(s[1..])
  }

  /** How many bytes the sequence started by `b` has; 0 if no sequence starts so. */
  function SequenceLength(b: byte): nat {
    if b < 0x80 then 1 else if b < 0xC2 then 0 else if b < 0xE0 then 2 else if b < 0xF0 then 3
    else if b < 0xF5 then 4 else 0
  }

  predicate IsContinuation(b: byte) {
    0x80 <= b < 0xC0
  }

  /** The number a complete sequence stands for. */
  function CodePoint(bs: seq<byte>): int
    requires 1 <= |bs| <= 4
  {
    var lead, tail := bs[0] as int, (i: int) requires 0 <= i < |bs| => bs[i] as int - 0x80;
    match |bs|
    case 1 => lead
    case 2 => (lead - 0xC0) * 64 + tail(1)
    case 3 => (lead - 0xE0) * 4096 + tail(1) * 64 + tail(2)
    case _ => (lead - 0xF0) * 262144 + tail(1) * 4096 + tail(2) * 64 + tail(3)
  }

  /** A complete, shortest-form sequence for a Unicode scalar value. */
  predicate IsSequence(bs: seq<byte>) {
    && 1 <= |bs| <= 4
    && SequenceLength(bs[0]) == |bs|
    && (forall i :: 1 <= i < |bs| ==> IsContinuation(bs[i]))
    && var n := CodePoint(bs);
       match |bs|
       case 1 => true
       case 2 => 0x80 <= n < 0x800
       case 3 => 0x800 <= n < 0xD800 || 0xE000 <= n < 0x10000
       case _ => 0x10000 <= n < 0x110000
  }

  /** `bytes.decode("utf-8", errors="ignore")`: bytes that begin no sequence are dropped. */
  function DecodeIgnore(bs: seq<byte>): string
    decreases |bs|
  {
    if bs == [] then ""
    else
      var n := SequenceLength(bs[0]);
      if 0 < n <= |bs| && IsSequence(bs[..n]) then [CodePoint(bs[..n]) as char] + DecodeIgnore(bs[n..])
      else DecodeIgnore(bs[1..])
  }

  lemma EncodedCharDecodes(c: char)
    ensures IsSequence(EncodeChar(c)) && CodePoint(EncodeChar(c)) == c as int
  {
    var n := c as int;
    var bs := EncodeChar(c);
    if n < 0x800 {
      assert n == 64 * (n / 64) + n % 64;
    } else if n < 0x10000 {
      Digits(n);
      assert CodePoint(bs) == n;
    } else {
      Digits(n);
      assert CodePoint(bs) == n;
    }
  }

  /** A number in base 64. */
  lemma Digits(n: nat)
    ensures n == n / 4096 * 4096 + n / 64 % 64 * 64 + n % 64
    ensures n == n / 262144 * 262144 + n / 4096 % 64 * 4096 + n / 64 % 64 * 64 + n % 64
  {
    assert n / 64 / 64 == n / 4096;
    assert n / 4096 / 64 == n / 262144;
  }

  lemma WholeCharDecodes(c: char, rest: seq<byte>)
    ensures DecodeIgnore(EncodeChar(c) + rest) == [c] + DecodeIgnore(rest)
  {
    var head, bs := EncodeChar(c), EncodeChar(c) + rest;
    EncodedCharDecodes(c);
    assert bs[0] == head[0] && bs[..|head|] == head && bs[|head|..] == rest;
  }

  /** What is left of a sequence cut short decodes to nothing. */
  lemma CutSequenceIsIgnored(c: char, k: nat)
    requires k < |EncodeChar(c)|
    ensures DecodeIgnore(EncodeChar(c)[..k]) == ""
  {
    EncodedCharDecodes(c);
    var bs := EncodeChar(c);
    if k > 0 {
      assert bs[..k][0] == bs[0] && SequenceLength(bs[0]) == |bs| > k;
      ContinuationsAreIgnored(bs[..k][1..]);
    }
  }

  lemma ContinuationsAreIgnored(bs: seq<byte>)
    requires forall i :: 0 <= i < |bs| ==> IsContinuation(bs[i])
    ensures DecodeIgnore(bs) == ""
  {
    if bs != [] {
      ContinuationsAreIgnored(bs[1..]);
    }
  }

  /** How many code points of `s` fit into `limit` bytes. */
  function Fitting(s: string, limit: nat): (k: nat)
    ensures k <= |s|
  {
    if s == "" || |EncodeChar(s[0])| > limit then 0 else 1 + Fitting(s[1..], limit - |EncodeChar(s[0])|)
  }

  lemma EncodeAppend(a: string, b: string)
    ensures Encode(a + b) == Encode(a) + Encode(b)
  {
    if a == "" {
      assert a + b == b;
    } else {
      assert (a + b)[1..] == a[1..] + b;
      EncodeAppend(a[1..], b);
    }
  }

  /** The prefix fits, and no longer prefix does. */
  lemma {:induction false} FittingIsLongest(s: string, limit: nat)
    ensures |Encode(s[..Fitting(s, limit)])| <= limit
    ensures forall j :: Fitting(s, limit) < j <= |s| ==> |Encode(s[..j])| > limit
    decreases |s|
  {
    if s != "" {
      var n := |EncodeChar(s[0])|;
      forall j | 0 < j <= |s| ensures |Encode(s[..j])| == n + |Encode(s[1..][..j - 1])| {
        assert s[..j][1..] == s[1..][..j - 1];
      }
      if n <= limit {
        FittingIsLongest(s[1..], limit - n);
        var k := Fitting(s, limit);
        assert k == 1 + Fitting(s[1..], limit - n);
        forall j | k < j <= |s| ensures |Encode(s[..j])| > limit {
          assert |Encode(s[1..][..j - 1])| > limit - n;
        }
      }
    }
  }

  /** Decoding the first `limit` bytes of an encoded text gives exactly the code points that fit. */
  lemma {:induction false} CutTextDecodes(s: string, limit: nat)
    requires limit <= |Encode(s)|
    ensures DecodeIgnore(Encode(s)[..limit]) == s[..Fitting(s, limit)]
    decreases |s|
  {
    if s != "" {
      var head := EncodeChar(s[0]);
      var n := |head|;
      var cut := Encode(s)[..limit];
      if n <= limit {
        var rest := Encode(s[1..])[..limit - n];
        assert cut == head + rest;
        WholeCharDecodes(s[0], rest);
        CutTextDecodes(s[1..], limit - n);
        assert s[..Fitting(s, limit)] == [s[0]] + s[1..][..Fitting(s[1..], limit - n)];
      } else {
        assert cut == head[..limit];
        CutSequenceIsIgnored(s[0], limit);
      }
    } else {
      assert Encode(s)[..limit] == [];
    }
  }

  /** `_bound_text` */
  function BoundText(value: string, limit: int): string {
    if limit <= 0 then ""
    else
      var encoded := Encode(value);
      if |encoded| <= limit then value else DecodeIgnore(encoded[..limit])
  }

  /** Bounded text is the longest prefix, in whole code points, that fits the byte limit. */
  lemma BoundTextIsLongestPrefix(value: string, limit: int)
    ensures BoundText(value, limit) <= value
    ensures limit > 0 ==> |Encode(BoundText(value, limit))| <= limit
    ensures forall j :: |BoundText(value, limit)| < j <= |value| ==> |Encode(value[..j])| > limit
    ensures limit > 0 ==> (BoundText(value, limit) == value <==> |Encode(value)| <= limit)
  {
    if limit <= 0 {
      forall j | 0 < j <= |value| ensures |Encode(value[..j])| > limit {
      }
    } else if |Encode(value)| > limit {
      CutTextDecodes(value, limit);
      FittingIsLongest(value, limit);
      var k := Fitting(value, limit);
      assert |Encode(value[..k])| <= limit;
    }
  }
}

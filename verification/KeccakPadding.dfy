/** The padding of `keccak256` in evm-abi.ts: the byte 0x01, zeros to a multiple of the
    rate, and the top bit of the last byte. */
module KeccakPadding {
  import opened JsText

  const RATE: nat := 136

  /** `Math.ceil((length + 1) / rate) * rate` */
  function PaddedLength(length: nat): (n: nat)
    ensures n % RATE == 0 && length < n <= length + RATE
  {
    (length + 1 + RATE - 1) / RATE * RATE
  }

  /** `byte | 0x80` */
  function OrTopBit(b: Byte): Byte { if b < 128 then b + 128 else b }

  function PaddedByte(m: seq<Byte>, i: nat): Byte {
    var b := if i < |m| then m[i] else if i == |m| then 1 else 0;
    if i == PaddedLength(|m|) - 1 then OrTopBit(b) else b
  }

  function Padded(m: seq<Byte>): (p: seq<Byte>)
    ensures |p| == PaddedLength(|m|)
  {
    seq(PaddedLength(|m|), i requires 0 <= i < PaddedLength(|m|) => PaddedByte(m, i))
  }

  /** The array that `keccak256` absorbs. */
  method PadMessage(input: seq<Byte>) returns (padded: array<Byte>)
    ensures fresh(padded) && padded[..] == Padded(input)
  {
    padded := new Byte[PaddedLength(|input|)](_ => 0);
    for i := 0 to |input|
      invariant forall k :: 0 <= k < padded.Length ==> padded[k] == if k < i then input[k] else 0
    {
      padded[i] := input[i];
    }
    padded[|input|] := 1;
    padded[padded.Length - 1] := OrTopBit(padded[padded.Length - 1]);
  }

  /** A message is padded with 0x01, zeros and 0x80, or with 0x81 where the two bytes
      meet, up to the next multiple of the rate. */
  lemma PaddedText(m: seq<Byte>)
    ensures |Padded(m)| % RATE == 0 && |m| < |Padded(m)| <= |m| + RATE
    ensures Padded(m) ==
            if |m| % RATE == RATE - 1 then m + [0x81]
            else m + [0x01] + seq(|Padded(m)| - |m| - 2, _ => 0) + [0x80]
  {
    var n := |Padded(m)|;
    NextMultiple(|m|, n);
    var p := if n == |m| + 1 then m + [0x81] else m + [0x01] + seq(n - |m| - 2, _ => 0) + [0x80];
    forall i | 0 <= i < n
      ensures Padded(m)[i] == p[i]
    {
      assert Padded(m)[i] == PaddedByte(m, i);
    }
  }

  lemma NextMultiple(length: nat, n: nat)
    requires n % RATE == 0 && length < n <= length + RATE
    ensures n == length + 1 <==> length % RATE == RATE - 1
  {
  }

  lemma PaddedLonger(a: seq<Byte>, b: seq<Byte>)
    requires |a| < |b|
    ensures Padded(a) != Padded(b)
  {
    if |Padded(a)| == |Padded(b)| {
      var k := |b|;
      assert Padded(a)[k] == PaddedByte(a, k);
      assert Padded(b)[k] == PaddedByte(b, k);
      assert PaddedByte(a, k) != PaddedByte(b, k);
    }
  }

  /** Different messages are absorbed as different blocks: the padding can be undone. */
  lemma PaddingIsInjective(a: seq<Byte>, b: seq<Byte>)
    requires Padded(a) == Padded(b)
    ensures a == b
  {
    if |a| < |b| {
      PaddedLonger(a, b);
    } else if |b| < |a| {
      PaddedLonger(b, a);
    } else {
      forall i | 0 <= i < |a|
        ensures a[i] == b[i]
      {
        assert Padded(a)[i] == PaddedByte(a, i) == a[i];
        assert Padded(b)[i] == PaddedByte(b, i) == b[i];
      }
    }
  }
}

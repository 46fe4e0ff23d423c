/** The byte string a header hash is taken of: it tells any two headers apart, signatures aside. */
module HeaderEncoding {
  import opened Types
  import opened Bytes
  import opened Blocks

  type Bytes32 = b: seq<byte> | |b| == 32 witness seq(32, _ => 0)
  type Bloom = b: seq<byte> | |b| == 256 witness seq(256, _ => 0)
  type u256 = x: nat | x < Pow256(32) witness 0

  const TWO_TO_32: nat := 0x1_0000_0000

  datatype FullHeader = FullHeader(
    parentHash: Bytes32,
    uncleHash: Bytes32,
    coinbase: Address,
    stateRoot: Bytes32,
    transactionsRoot: Bytes32,
    receiptsRoot: Bytes32,
    logsBloom: Bloom,
    difficulty: u256,
    number: u64,
    gasLimit: u64,
    gasUsed: u64,
    timestamp: u64,
    extraData: seq<byte>,
    mixHash: Bytes32,
    nonce: u64,
    baseFee: u64,
    epoch: u64,
    epochSeed: Option<Bytes32>,
    committeeSignature: seq<byte>)

  function Concat(chunks: seq<seq<byte>>): seq<byte> {
    if chunks == [] then [] else chunks[0] + Concat(chunks[1..])
  }

  function FixedHead(h: FullHeader): seq<seq<byte>> {
    [h.parentHash, h.uncleHash, h.coinbase, h.stateRoot, h.transactionsRoot, h.receiptsRoot, h.logsBloom,
     ToBytes(h.difficulty, 32), ToBytes(h.number, 8), ToBytes(h.gasLimit, 8), ToBytes(h.gasUsed, 8), ToBytes(h.timestamp, 8)]
  }

  /** The length is cut to 32 bits. */
  function LengthTag(data: seq<byte>): seq<byte> {
    ToBytes(|data| % TWO_TO_32, 4)
  }

  function FixedTail(h: FullHeader): seq<seq<byte>> {
    [h.mixHash, ToBytes(h.nonce, 8), ToBytes(h.baseFee, 8), ToBytes(h.epoch, 8)]
  }

  function SeedBytes(seed: Option<Bytes32>): seq<byte> {
    match seed case None => [0] case Some(s) => [1] + s
  }

  /** `canonical_encode`. */
  function Encode(h: FullHeader): seq<byte> {
    Concat(FixedHead(h)) + (LengthTag(h.extraData) + (h.extraData + (Concat(FixedTail(h)) + SeedBytes(h.epochSeed))))
  }

  lemma SplitAt(p: seq<byte>, q: seq<byte>, p': seq<byte>, q': seq<byte>)
    requires p + q == p' + q' && |p| == |p'|
    ensures p == p' && q == q'
  {
    assert p == (p + q)[..|p|] && p' == (p' + q')[..|p|];
    assert q == (p + q)[|p|..] && q' == (p' + q')[|p|..];
  }

  predicate SameShape(a: seq<seq<byte>>, b: seq<seq<byte>>) {
    |a| == |b| && forall i | 0 <= i < |a| :: |a[i]| == |b[i]|
  }

  lemma {:induction false} SameShapeSameLength(a: seq<seq<byte>>, b: seq<seq<byte>>)
    requires SameShape(a, b)
    ensures |Concat(a)| == |Concat(b)|
  {
    if a != [] {
      SameShapeSameLength(a[1..], b[1..]);
    }
  }

  lemma {:induction false} ConcatInjective(a: seq<seq<byte>>, b: seq<seq<byte>>)
    requires SameShape(a, b) && Concat(a) == Concat(b)
    ensures a == b
  {
    if a != [] {
      SplitAt(a[0], Concat(a[1..]), b[0], Concat(b[1..]));
      ConcatInjective(a[1..], b[1..]);
      assert a == [a[0]] + a[1..] && b == [b[0]] + b[1..];
    }
  }

  lemma Widths()
    ensures Pow256(8) == U64_MAX + 1 && Pow256(4) == TWO_TO_32
  {
  }

  lemma HeadInjective(a: FullHeader, b: FullHeader)
    requires FixedHead(a) == FixedHead(b)
    ensures a.parentHash == b.parentHash && a.uncleHash == b.uncleHash && a.coinbase == b.coinbase
    ensures a.stateRoot == b.stateRoot && a.transactionsRoot == b.transactionsRoot && a.receiptsRoot == b.receiptsRoot
    ensures a.logsBloom == b.logsBloom && a.difficulty == b.difficulty && a.number == b.number
    ensures a.gasLimit == b.gasLimit && a.gasUsed == b.gasUsed && a.timestamp == b.timestamp
  {
    var x, y := FixedHead(a), FixedHead(b);
    Widths();
    assert forall i | 0 <= i < 12 :: x[i] == y[i];
    assert x[0] == a.parentHash && x[1] == a.uncleHash && x[2] == a.coinbase && x[3] == a.stateRoot;
    assert x[4] == a.transactionsRoot && x[5] == a.receiptsRoot && x[6] == a.logsBloom;
    assert x[7] == ToBytes(a.difficulty, 32) && x[8] == ToBytes(a.number, 8) && x[9] == ToBytes(a.gasLimit, 8);
    assert x[10] == ToBytes(a.gasUsed, 8) && x[11] == ToBytes(a.timestamp, 8);
    ToBytesInjective(a.difficulty, b.difficulty, 32);
    ToBytesInjective(a.number, b.number, 8);
    ToBytesInjective(a.gasLimit, b.gasLimit, 8);
    ToBytesInjective(a.gasUsed, b.gasUsed, 8);
    ToBytesInjective(a.timestamp, b.timestamp, 8);
  }

  lemma TailInjective(a: FullHeader, b: FullHeader)
    requires FixedTail(a) == FixedTail(b)
    ensures a.mixHash == b.mixHash && a.nonce == b.nonce && a.baseFee == b.baseFee && a.epoch == b.epoch
  {
    var x, y := FixedTail(a), FixedTail(b);
    Widths();
    assert x[0] == y[0] && x[1] == y[1] && x[2] == y[2] && x[3] == y[3];
    ToBytesInjective(a.nonce, b.nonce, 8);
    ToBytesInjective(a.baseFee, b.baseFee, 8);
    ToBytesInjective(a.epoch, b.epoch, 8);
  }

  /** Equal tags and equal total length mean equal data lengths, even where the tag is cut: a seed adds only 32 bytes. */
  lemma SameDataLength(a: FullHeader, b: FullHeader)
    requires LengthTag(a.extraData) == LengthTag(b.extraData)
    requires |a.extraData| + |SeedBytes(a.epochSeed)| == |b.extraData| + |SeedBytes(b.epochSeed)|
    ensures |a.extraData| == |b.extraData|
  {
    Widths();
    ToBytesInjective(|a.extraData| % TWO_TO_32, |b.extraData| % TWO_TO_32, 4);
  }

  lemma SeedInjective(a: Option<Bytes32>, b: Option<Bytes32>)
    requires SeedBytes(a) == SeedBytes(b)
    ensures a == b
  {
    if a.Some? && b.Some? {
      SplitAt([1], a.value, [1], b.value);
    }
    assert SeedBytes(a)[0] == SeedBytes(b)[0];
  }

  /** Two headers encode alike exactly when they differ in nothing but the committee signature, for extra data of any length. */
  lemma EncodingIdentifiesHeader(a: FullHeader, b: FullHeader)
    ensures Encode(a) == Encode(b) <==> a.(committeeSignature := []) == b.(committeeSignature := [])
  {
    if Encode(a) == Encode(b) {
      SameShapeSameLength(FixedHead(a), FixedHead(b));
      SameShapeSameLength(FixedTail(a), FixedTail(b));
      var tailA, tailB := Concat(FixedTail(a)) + SeedBytes(a.epochSeed), Concat(FixedTail(b)) + SeedBytes(b.epochSeed);
      SplitAt(Concat(FixedHead(a)), LengthTag(a.extraData) + (a.extraData + tailA),
              Concat(FixedHead(b)), LengthTag(b.extraData) + (b.extraData + tailB));
      SplitAt(LengthTag(a.extraData), a.extraData + tailA, LengthTag(b.extraData), b.extraData + tailB);
      SameDataLength(a, b);
      SplitAt(a.extraData, tailA, b.extraData, tailB);
      SplitAt(Concat(FixedTail(a)), SeedBytes(a.epochSeed), Concat(FixedTail(b)), SeedBytes(b.epochSeed));
      ConcatInjective(FixedHead(a), FixedHead(b));
      ConcatInjective(FixedTail(a), FixedTail(b));
      HeadInjective(a, b);
      TailInjective(a, b);
      SeedInjective(a.epochSeed, b.epochSeed);
    }
  }

  // ----- Where each field is ---------------------------------------------------------------------------

  /** From position `start` on, `e` reads `part`. */
  predicate At(e: seq<byte>, start: nat, part: seq<byte>) {
    start + |part| <= |e| && e[start..start + |part|] == part
  }

  lemma AtBetween(front: seq<byte>, part: seq<byte>, rest: seq<byte>)
    ensures At(front + (part + rest), |front|, part)
  {
  }

  lemma AtInside(front: seq<byte>, e: seq<byte>, rest: seq<byte>, start: nat, part: seq<byte>)
    requires At(e, start, part)
    ensures At(front + (e + rest), |front| + start, part)
  {
    assert (front + (e + rest))[|front| + start..|front| + start + |part|] == e[start..start + |part|];
  }

  lemma AllInside(front: seq<byte>, e: seq<byte>, rest: seq<byte>)
    ensures forall start: nat, part | At(e, start, part) :: At(front + (e + rest), |front| + start, part)
  {
    forall start: nat, part | At(e, start, part) ensures At(front + (e + rest), |front| + start, part) {
      AtInside(front, e, rest, start, part);
    }
  }

  /** Four chunks, one after the other. */
  lemma FourAt(a: seq<byte>, b: seq<byte>, c: seq<byte>, d: seq<byte>)
    ensures var e := Concat([a, b, c, d]);
            && |e| == |a| + |b| + |c| + |d|
            && At(e, 0, a) && At(e, |a|, b) && At(e, |a| + |b|, c) && At(e, |a| + |b| + |c|, d)
  {
    assert Concat([d]) == d;
    assert Concat([c, d]) == c + d;
    assert Concat([b, c, d]) == b + (c + d);
    assert Concat([a, b, c, d]) == a + (b + (c + d));
    assert a + (b + (c + d)) == (a + b) + (c + d) == (a + b + c) + d;
    assert [] + (a + (b + (c + d))) == a + (b + (c + d));
    AtBetween([], a, b + (c + d));
    AtBetween(a, b, c + d);
    AtBetween(a + b, c, d);
    AtBetween(a + b + c, d, []);
    assert d + [] == d;
  }

  lemma Associative(a: seq<byte>, b: seq<byte>, c: seq<byte>)
    ensures a + (b + c) == a + b + c
  {
  }

  lemma {:induction false} ConcatSplits(p: seq<seq<byte>>, q: seq<seq<byte>>)
    ensures Concat(p + q) == Concat(p) + Concat(q)
  {
    if p == [] {
      assert p + q == q;
    } else {
      var first, rest := p[0], p[1..];
      ConcatSplits(rest, q);
      assert (p + q)[0] == first && (p + q)[1..] == rest + q;
      Associative(first, Concat(rest), Concat(q));
    }
  }

  /** The three groups of four in front of the extra data. */
  function Roots(h: FullHeader): seq<byte> {
    Concat([h.parentHash, h.uncleHash, h.coinbase, h.stateRoot])
  }

  function Blooms(h: FullHeader): seq<byte> {
    Concat([h.transactionsRoot, h.receiptsRoot, h.logsBloom, ToBytes(h.difficulty, 32)])
  }

  function Numbers(h: FullHeader): seq<byte> {
    Concat([ToBytes(h.number, 8), ToBytes(h.gasLimit, 8), ToBytes(h.gasUsed, 8), ToBytes(h.timestamp, 8)])
  }

  lemma HeadGroups(h: FullHeader)
    ensures Concat(FixedHead(h)) == Roots(h) + (Blooms(h) + Numbers(h))
  {
    var x := [h.parentHash, h.uncleHash, h.coinbase, h.stateRoot];
    var y := [h.transactionsRoot, h.receiptsRoot, h.logsBloom, ToBytes(h.difficulty, 32)];
    var z := [ToBytes(h.number, 8), ToBytes(h.gasLimit, 8), ToBytes(h.gasUsed, 8), ToBytes(h.timestamp, 8)];
    assert FixedHead(h) == x + (y + z);
    ConcatSplits(x, y + z);
    ConcatSplits(y, z);
  }

  /** The fields in front of the extra data. */
  ghost predicate HeadAt(e: seq<byte>, h: FullHeader) {
    && At(e, 0, h.parentHash) && At(e, 32, h.uncleHash) && At(e, 64, h.coinbase) && At(e, 84, h.stateRoot)
    && At(e, 116, h.transactionsRoot) && At(e, 148, h.receiptsRoot) && At(e, 180, h.logsBloom)
    && At(e, 436, ToBytes(h.difficulty, 32)) && At(e, 468, ToBytes(h.number, 8)) && At(e, 476, ToBytes(h.gasLimit, 8))
    && At(e, 484, ToBytes(h.gasUsed, 8)) && At(e, 492, ToBytes(h.timestamp, 8))
  }

  lemma HeadLayout(h: FullHeader, rest: seq<byte>)
    ensures |Concat(FixedHead(h))| == 500 && HeadAt(Concat(FixedHead(h)) + rest, h)
  {
    var x, y, z := Roots(h), Blooms(h), Numbers(h);
    FourAt(h.parentHash, h.uncleHash, h.coinbase, h.stateRoot);
    FourAt(h.transactionsRoot, h.receiptsRoot, h.logsBloom, ToBytes(h.difficulty, 32));
    FourAt(ToBytes(h.number, 8), ToBytes(h.gasLimit, 8), ToBytes(h.gasUsed, 8), ToBytes(h.timestamp, 8));
    HeadGroups(h);
    var e := Concat(FixedHead(h)) + rest;
    assert e == [] + (x + (y + (z + rest)));
    assert e == x + (y + (z + rest));
    assert e == (x + y) + (z + rest);
    AllInside([], x, y + (z + rest));
    AllInside(x, y, z + rest);
    AllInside(x + y, z, rest);
  }

  /**
   Where every field is: fixed positions up to the extra data, whose length is in front of it, and
   fixed distances behind it. Numbers have their most significant byte first.
  */
  lemma Layout(h: FullHeader)
    ensures var e, n := Encode(h), |h.extraData|;
            && |e| == 561 + n + (if h.epochSeed.Some? then 32 else 0)
            && HeadAt(e, h)
            && At(e, 500, ToBytes(n % TWO_TO_32, 4)) && At(e, 504, h.extraData)
            && At(e, 504 + n, h.mixHash) && At(e, 536 + n, ToBytes(h.nonce, 8))
            && At(e, 544 + n, ToBytes(h.baseFee, 8)) && At(e, 552 + n, ToBytes(h.epoch, 8))
            && At(e, 560 + n, if h.epochSeed.Some? then [1] + h.epochSeed.value else [0])
  {
    var head, tag, tail, seed := Concat(FixedHead(h)), LengthTag(h.extraData), Concat(FixedTail(h)), SeedBytes(h.epochSeed);
    var data := h.extraData;
    HeadLayout(h, tag + (data + (tail + seed)));
    FourAt(h.mixHash, ToBytes(h.nonce, 8), ToBytes(h.baseFee, 8), ToBytes(h.epoch, 8));
    var e := Encode(h);
    assert e == head + (tag + (data + (tail + seed)));
    assert e == (head + tag) + (data + (tail + seed));
    assert e == (head + tag + data) + (tail + seed);
    assert e == (head + tag + data + tail) + (seed + []);
    AtBetween(head, tag, data + (tail + seed));
    AtBetween(head + tag, data, tail + seed);
    AllInside(head + tag + data, tail, seed);
    AtBetween(head + tag + data + tail, seed, []);
  }

  // ----- The header of the chain model -------------------------------------------------------------------

  /** The chain model's header of `h`. */
  function HeaderOf(h: FullHeader): Header {
    Header(Raw(h.parentHash), h.coinbase, Raw(h.stateRoot), Raw(h.transactionsRoot), Raw(h.receiptsRoot), h.logsBloom,
           h.number, h.gasLimit, h.gasUsed, h.timestamp, h.baseFee, h.extraData, h.epoch,
           if h.epochSeed.Some? then Some(Raw(h.epochSeed.value)) else None, h.committeeSignature)
  }

  /** The fields that every header of this chain has in common. */
  predicate IsPlain(h: FullHeader) {
    h.uncleHash == h.mixHash == seq(32, _ => 0) && h.difficulty == h.nonce == 0
  }

  /** The hash of the chain model tells headers apart exactly as their encodings do. */
  lemma HashFollowsEncoding(a: FullHeader, b: FullHeader)
    requires IsPlain(a) && IsPlain(b)
    ensures Hash(HeaderOf(a)) == Hash(HeaderOf(b)) <==> Encode(a) == Encode(b)
  {
    EncodingIdentifiesHeader(a, b);
    var x, y := HeaderOf(a).(committeeSignature := []), HeaderOf(b).(committeeSignature := []);
    if x == y {
      assert Raw(a.parentHash) == Raw(b.parentHash) && Raw(a.stateRoot) == Raw(b.stateRoot);
      assert Raw(a.transactionsRoot) == Raw(b.transactionsRoot) && Raw(a.receiptsRoot) == Raw(b.receiptsRoot);
      assert a.epochSeed == b.epochSeed;
    }
  }
}

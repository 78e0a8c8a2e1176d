/** The streaming hash of src/digest.cpp against the one-shot definition of FIPS 180-4. */
module Sha256 {
  // The compression function, the initial value and the final rendering are parameters.

  import opened Bytes

  const BLOCK := 64

  predicate Aligned(n: nat) {
    n % BLOCK == 0
  }

  lemma AlignedLaws(a: nat, b: nat)
    requires Aligned(a)
    ensures Aligned(a + b) <==> Aligned(b)
    ensures Aligned(0) && Aligned(BLOCK)
    ensures a > 0 ==> a >= BLOCK && Aligned(a - BLOCK)
  {
  }

  /** Section 6.2 of FIPS 180-4: the blocks in order, each compressed into the hash value. */
  function Fold<H>(compress: (H, seq<Byte>) -> H, h: H, s: seq<Byte>): H
    requires Aligned(|s|)
    decreases |s|
  {
    AlignedLaws(|s|, 0);
    if s == [] then h else Fold(compress, compress(h, s[..BLOCK]), s[BLOCK..])
  }

  lemma {:induction false} FoldAppend<H>(compress: (H, seq<Byte>) -> H, h: H, a: seq<Byte>, b: seq<Byte>)
    requires Aligned(|a|) && Aligned(|b|)
    ensures Aligned(|a + b|)
    ensures Fold(compress, h, a + b) == Fold(compress, Fold(compress, h, a), b)
    decreases |a|
  {
    AlignedLaws(|a|, |b|);
    hide Aligned;
    if a == [] {
      assert a + b == b;
    } else {
      assert (a + b)[..BLOCK] == a[..BLOCK] && (a + b)[BLOCK..] == a[BLOCK..] + b;
      FoldAppend(compress, compress(h, a[..BLOCK]), a[BLOCK..], b);
    }
  }

  lemma FoldBlock<H>(compress: (H, seq<Byte>) -> H, h: H, a: seq<Byte>, block: seq<Byte>)
    requires Aligned(|a|) && |block| == BLOCK
    ensures Aligned(|a + block|)
    ensures Fold(compress, h, a + block) == compress(Fold(compress, h, a), block)
  {
    AlignedLaws(|a|, |block|);
    hide Aligned;
    FoldAppend(compress, h, a, block);
    assert block[..BLOCK] == block && block[BLOCK..] == [];
  }

  function BigEndian(n: nat, k: nat): (s: seq<Byte>)
    ensures |s| == k
  {
    if k == 0 then [] else BigEndian(n / 256, k - 1) + [n % 256]
  }

  lemma {:induction false} BigEndianInjective(a: nat, b: nat, k: nat)
    requires a < Scale(k) && b < Scale(k) && BigEndian(a, k) == BigEndian(b, k)
    ensures a == b
  {
    if k > 0 {
      var u, v := BigEndian(a, k), BigEndian(b, k);
      assert u[..k - 1] == BigEndian(a / 256, k - 1) && v[..k - 1] == BigEndian(b / 256, k - 1);
      assert u[k - 1] == a % 256 && v[k - 1] == b % 256;
      BigEndianInjective(a / 256, b / 256, k - 1);
    }
  }

  /** Zero bytes between the 0x80 byte and the length field. */
  function PadZeros(n: nat): nat {
    (119 - n % BLOCK) % BLOCK
  }

  /** Section 5.1.1 of FIPS 180-4, counted in bytes: the smallest count that leaves room for
      the 8-byte length at the end of a block. */
  lemma PadZerosLeast(n: nat, k: nat)
    ensures (n + 1 + PadZeros(n)) % BLOCK == 56
    ensures (n + 1 + k) % BLOCK == 56 ==> PadZeros(n) <= k
  {
  }

  function Zeros(k: nat): (s: seq<Byte>)
    ensures |s| == k
  {
    seq(k, _ => 0)
  }

  function BitLength(n: nat): U64 {
    n * 8 % 0x1_0000_0000_0000_0000
  }

  function Pad(m: seq<Byte>): (p: seq<Byte>)
    ensures |p| == |m| + 1 + PadZeros(|m|) + 8
  {
    m + [0x80] + Zeros(PadZeros(|m|)) + BigEndian(BitLength(|m|), 8)
  }

  lemma PadFillsBlocks(m: seq<Byte>)
    ensures Aligned(|Pad(m)|)
    ensures m <= Pad(m)
  {
    PadAligned(|m|);
    hide Aligned, PadZeros, BitLength, BigEndian;
    assert Pad(m) == m + ([0x80] + Zeros(PadZeros(|m|)) + BigEndian(BitLength(|m|), 8));
  }

  lemma PadAligned(n: nat)
    ensures Aligned(n + 1 + PadZeros(n) + 8)
  {
    PadZerosLeast(n, 0);
  }

  /** Below the length the standard allows, different messages are padded differently. */
  lemma PadInjective(a: seq<Byte>, b: seq<Byte>)
    requires |a| * 8 < 0x1_0000_0000_0000_0000 && |b| * 8 < 0x1_0000_0000_0000_0000
    requires Pad(a) == Pad(b)
    ensures a == b
  {
    var u := LengthField(a);
    var v := LengthField(b);
    ScaleValues();
    BigEndianInjective(u, v, 8);
    PadFillsBlocks(a);
    PadFillsBlocks(b);
    assert |a| == |b|;
  }

  lemma LengthField(m: seq<Byte>) returns (bits: U64)
    requires |m| * 8 < 0x1_0000_0000_0000_0000
    ensures bits == |m| * 8
    ensures Pad(m)[|Pad(m)| - 8..] == BigEndian(bits, 8)
  {
    hide BigEndian, PadZeros;
    bits := BitLength(|m|);
  }

  /** The one-shot hash of a message. */
  function Hash<H>(compress: (H, seq<Byte>) -> H, initial: H, render: H -> seq<Byte>, m: seq<Byte>): seq<Byte> {
    PadFillsBlocks(m);
    render(Fold(compress, initial, Pad(m)))
  }

  class Hasher<H> {
    const compress: (H, seq<Byte>) -> H
    const initial: H
    const render: H -> seq<Byte>
    var state: H
    const buffer: array<Byte>
    var bufferUsed: nat
    var totalBytes: U64
    ghost var hashed: seq<Byte>

    constructor (compress: (H, seq<Byte>) -> H, initial: H, render: H -> seq<Byte>)
      ensures Valid() && Message() == [] && fresh(buffer)
      ensures this.compress == compress && this.initial == initial && this.render == render
    {
      this.compress, this.initial, this.render := compress, initial, render;
      state, bufferUsed, totalBytes, hashed := initial, 0, 0, [];
      buffer := new Byte[BLOCK];
    }

    /** `state` is the hash of the whole blocks so far. */
    ghost predicate Hashing()
      reads this
    {
      && buffer.Length == BLOCK
      && bufferUsed < BLOCK
      && Aligned(|hashed|)
      && state == Fold(compress, initial, hashed)
    }

    /** Everything given to `update`: the hashed blocks, then what waits in the buffer. */
    ghost function Message(): seq<Byte>
      requires Hashing()
      reads this, buffer
    {
      hashed + buffer[..bufferUsed]
    }

    ghost predicate Valid()
      reads this, buffer
    {
      && Hashing()
      && totalBytes == |Message()| % 0x1_0000_0000_0000_0000
    }

    /** `update`: fill the buffer, then whole blocks straight from the input, then the tail. */
    method Update(data: seq<Byte>)
      requires Valid()
      modifies this, buffer
      ensures Valid() && Message() == old(Message()) + data
    {
      hide Aligned, Fold;
      ghost var before := Message();
      if |data| == 0 {
        assert before + data == before;
        return;
      }
      WrapSum(|before|, |data|);
      totalBytes := (totalBytes + |data|) % 0x1_0000_0000_0000_0000;
      var at: nat := 0;
      if bufferUsed > 0 {
        at := FillBuffer(data);
      }
      if bufferUsed == 0 {
        assert Message() == hashed;
        at := HashBlocks(data, at);
      }
      if at < |data| {
        StoreTail(data, at);
      }
      assert before + data == before + data[..at] + data[at..];
    }

    /** The first part of `update`: top up a partly filled buffer and compress it when full. */
    method FillBuffer(data: seq<Byte>) returns (take: nat)
      requires Hashing() && 0 < bufferUsed
      modifies this, buffer
      ensures Hashing() && totalBytes == old(totalBytes)
      ensures take <= |data| && Message() == old(Message()) + data[..take]
      ensures bufferUsed == 0 || take == |data|
    {
      hide Aligned, Fold;
      var want := BLOCK - bufferUsed;
      take := if |data| < want then |data| else want;
      ghost var tail := buffer[..bufferUsed];
      for i := 0 to take
        invariant Hashing() && bufferUsed == old(bufferUsed) && totalBytes == old(totalBytes)
        invariant hashed == old(hashed)
        invariant buffer[..bufferUsed + i] == tail + data[..i]
      {
        buffer[bufferUsed + i] := data[i];
        assert buffer[..bufferUsed + i + 1] == buffer[..bufferUsed + i] + [data[i]];
        assert data[..i + 1] == data[..i] + [data[i]];
      }
      bufferUsed := bufferUsed + take;
      assert hashed + buffer[..bufferUsed] == old(Message()) + data[..take];
      if bufferUsed == BLOCK {
        assert buffer[..] == buffer[..BLOCK];
        FoldBlock(compress, initial, hashed, buffer[..]);
        state := compress(state, buffer[..]);
        hashed := hashed + buffer[..];
        bufferUsed := 0;
        assert hashed + buffer[..0] == hashed;
      }
    }

    /** The second part of `update`: whole blocks straight from the input. */
    method HashBlocks(data: seq<Byte>, start: nat) returns (at: nat)
      requires Hashing() && start <= |data|
      modifies this`state, this`hashed
      ensures Hashing() && start <= at <= |data| && |data| - at < BLOCK
      ensures hashed == old(hashed) + data[start..at]
    {
      hide Aligned, Fold;
      at := start;
      assert data[start..start] == [];
      while |data| - at >= BLOCK
        invariant Hashing() && start <= at <= |data|
        invariant hashed == old(hashed) + data[start..at]
      {
        var block := data[at..at + BLOCK];
        FoldBlock(compress, initial, hashed, block);
        state := compress(state, block);
        hashed := hashed + block;
        assert data[start..at + BLOCK] == data[start..at] + block;
        at := at + BLOCK;
      }
    }

    /** The last part of `update`: what does not fill a block waits in the buffer. */
    method StoreTail(data: seq<Byte>, at: nat)
      requires at < |data| && |data| - at < BLOCK && buffer.Length == BLOCK
      modifies this`bufferUsed, buffer
      ensures bufferUsed == |data| - at
      ensures buffer[..bufferUsed] == data[at..]
    {
      var length := |data| - at;
      for i := 0 to length
        invariant buffer[..i] == data[at..at + i]
      {
        buffer[i] := data[at + i];
      }
      bufferUsed := length;
    }

    /** `finish`: 0x80, zeros until 56 bytes are buffered, then the bit length. */
    method Finish() returns (digest: seq<Byte>)
      requires Valid()
      modifies this, buffer
      ensures digest == Hash(compress, initial, render, old(Message()))
    {
      hide Aligned, Fold, PadZeros, BitLength, BigEndian;
      ghost var m := Message();
      var bitLength := BitLength(totalBytes);
      SameBitLength(|m|);
      Update([0x80]);
      ghost var k := 0;
      assert Message() == m + [0x80] + Zeros(0);
      PaddingRoom(|m|, 0, |hashed|, bufferUsed);
      while bufferUsed != 56
        invariant Valid()
        invariant Message() == m + [0x80] + Zeros(k)
        invariant k <= PadZeros(|m|) && (bufferUsed == 56 <==> k == PadZeros(|m|))
        decreases PadZeros(|m|) - k
      {
        Update([0]);
        k := k + 1;
        assert Zeros(k) == Zeros(k - 1) + [0];
        PaddingRoom(|m|, k, |hashed|, bufferUsed);
      }
      Update(BigEndian(bitLength, 8));
      assert Message() == Pad(m);
      PadFillsBlocks(m);
      NothingLeft(|hashed|, bufferUsed);
      assert Message() == hashed;
      digest := render(state);
    }
  }

  lemma WrapSum(n: nat, more: nat)
    ensures (n % 0x1_0000_0000_0000_0000 + more) % 0x1_0000_0000_0000_0000 == (n + more) % 0x1_0000_0000_0000_0000
  {
  }

  /** With `k` zeros appended, 56 bytes are buffered exactly when the padding is complete. */
  lemma PaddingRoom(n: nat, k: nat, hashedLength: nat, used: nat)
    requires Aligned(hashedLength) && used < BLOCK && n + 1 + k == hashedLength + used
    requires k == 0 || k - 1 < PadZeros(n)
    ensures k <= PadZeros(n) && (used == 56 <==> k == PadZeros(n))
  {
  }

  lemma NothingLeft(hashedLength: nat, used: nat)
    requires Aligned(hashedLength) && used < BLOCK && Aligned(hashedLength + used)
    ensures used == 0
  {
  }

  lemma SameBitLength(n: nat)
    ensures BitLength(n % 0x1_0000_0000_0000_0000) == BitLength(n)
  {
  }

  function Flatten(chunks: seq<seq<Byte>>): seq<Byte> {
    if chunks == [] then [] else Flatten(chunks[..|chunks| - 1]) + chunks[|chunks| - 1]
  }

  /** However a message is cut into `update` calls, `finish` returns its one-shot hash. */
  method HashChunks<H>(compress: (H, seq<Byte>) -> H, initial: H, render: H -> seq<Byte>, chunks: seq<seq<Byte>>)
    returns (digest: seq<Byte>)
    ensures digest == Hash(compress, initial, render, Flatten(chunks))
  {
    var hasher := new Hasher(compress, initial, render);
    for i := 0 to |chunks|
      invariant hasher.Valid() && fresh(hasher) && fresh(hasher.buffer)
      invariant hasher.compress == compress && hasher.initial == initial && hasher.render == render
      invariant hasher.Message() == Flatten(chunks[..i])
    {
      hasher.Update(chunks[i]);
      assert chunks[..i + 1][..i] == chunks[..i];
    }
    assert chunks[..|chunks|] == chunks;
    digest := hasher.Finish();
  }
}

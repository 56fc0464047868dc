/** The deterministic gzip encoder with stored blocks (scripts/verify_release.py:79-94), and a
    decoder for members per section 2.3 of RFC 1952 holding stored blocks per section 3.2.4 of
    RFC 1951. The checksum is any function from payloads to 32-bit numbers. */
module Gzip {
  import opened Domain

  newtype Byte = x: int | 0 <= x < 256

  type Bytes = seq<Byte>

  const CHUNK: int := 65_535
  const WORD: int := 0x1_0000_0000

  // ----- Little-endian numbers

  function Low(n: nat): Byte {
    (n % 256) as Byte
  }

  function Pack16(n: nat): (bytes: Bytes)
    requires n < 65_536
    ensures |bytes| == 2
  {
    [Low(n), Low(n / 256)]
  }

  function Pack32(n: nat): (bytes: Bytes)
    requires n < WORD
    ensures |bytes| == 4
  {
    [Low(n), Low(n / 256), Low(n / 65_536), Low(n / 16_777_216)]
  }

  function Unpack16(b: Bytes): nat
    requires |b| == 2
  {
    b[0] as nat + 256 * b[1] as nat
  }

  function Unpack32(b: Bytes): nat
    requires |b| == 4
  {
    b[0] as nat + 256 * b[1] as nat + 65_536 * b[2] as nat + 16_777_216 * b[3] as nat
  }

  lemma Unpack16Pack16(n: nat)
    requires n < 65_536
    ensures Unpack16(Pack16(n)) == n
  {
  }

  lemma Unpack32Pack32(n: nat)
    requires n < WORD
    ensures Unpack32(Pack32(n)) == n
  {
    assert n / 65_536 == n / 256 / 256 && n / 16_777_216 == n / 65_536 / 256;
  }

  /** Exclusive or, bit by bit. */
  function Xor(a: nat, b: nat): nat {
    if a == 0 && b == 0 then 0
    else (if a % 2 == b % 2 then 0 else 1) + 2 * Xor(a / 2, b / 2)
  }

  function Ones(bits: nat): nat {
    if bits == 0 then 0 else 1 + 2 * Ones(bits - 1)
  }

  /** With all ones, exclusive or subtracts. */
  lemma {:induction false} XorOnes(n: nat, bits: nat)
    requires n <= Ones(bits)
    ensures Xor(Ones(bits), n) == Ones(bits) - n
    decreases bits
  {
    if bits > 0 {
      assert Ones(bits) / 2 == Ones(bits - 1) && Ones(bits) % 2 == 1;
      XorOnes(n / 2, bits - 1);
    }
  }

  lemma SixteenOnes()
    ensures Ones(16) == 65_535
  {
    assert Ones(4) == 15;
    assert Ones(8) == 255;
    assert Ones(12) == 4_095;
  }

  /** The complement of a block's length is written with exclusive or. */
  lemma ComplementIs(length: nat)
    requires length <= 65_535
    ensures Xor(65_535, length) == 65_535 - length
  {
    SixteenOnes();
    XorOnes(length, 16);
  }

  // ----- What is written

  const HEADER: Bytes := [0x1f, 0x8b, 0x08, 0x00]
  const TRAILER_OF_HEADER: Bytes := [0x00, 0xff]

  function Block(chunk: Bytes, final: bool): Bytes
    requires |chunk| <= CHUNK
  {
    ComplementIs(|chunk|);
    [if final then 1 else 0] + Pack16(|chunk|) + Pack16(Xor(65_535, |chunk|)) + chunk
  }

  /** The blocks of a payload: full ones, and a last one that is final, even if it is empty. */
  function Blocks(payload: Bytes): Bytes {
    if |payload| <= CHUNK then Block(payload, true)
    else Block(payload[..CHUNK], false) + Blocks(payload[CHUNK..])
  }

  function Head(mtime: nat): Bytes
    requires mtime < WORD
  {
    HEADER + Pack32(mtime) + TRAILER_OF_HEADER
  }

  function Tail(payload: Bytes, crc: Bytes -> nat): Bytes
    requires crc(payload) < WORD
  {
    Pack32(crc(payload)) + Pack32(|payload| % WORD)
  }

  // ----- What is read

  datatype Inflated = Inflated(payload: Bytes, blocks: nat, rest: Bytes)

  /** Stored blocks up to and including the first final one, counted; nothing for anything else. */
  function Inflate(input: Bytes): Option<Inflated>
    decreases |input|
  {
    if |input| < 5 then None
    else
      var length, complement := Unpack16(input[1..3]), Unpack16(input[3..5]);
      if input[0] > 1 || length + complement != 65_535 || |input| < 5 + length then None
      else
        var chunk, rest := input[5..5 + length], input[5 + length..];
        if input[0] == 1 then Some(Inflated(chunk, 1, rest))
        else
          var more := Inflate(rest);
          if more.None? then None
          else Some(Inflated(chunk + more.value.payload, more.value.blocks + 1, more.value.rest))
  }

  datatype Member = Member(payload: Bytes, mtime: nat)

  /** One member with no optional header field, whose checksum and size agree with its content. */
  function Decode(input: Bytes, crc: Bytes -> nat): Option<Member> {
    if |input| < 18 || input[..4] != HEADER then None
    else
      var inflated := Inflate(input[10..]);
      if inflated.None? then None
      else
        var payload, rest := inflated.value.payload, inflated.value.rest;
        if |rest| != 8 || Unpack32(rest[..4]) != crc(payload) || Unpack32(rest[4..]) != |payload| % WORD then None
        else Some(Member(payload, Unpack32(input[4..8])))
  }

  // ----- Round trip

  lemma BlockLayout(chunk: Bytes, final: bool, rest: Bytes)
    requires |chunk| <= CHUNK
    ensures var input := Block(chunk, final) + rest;
            && |input| >= 5 + |chunk|
            && input[0] == (if final then 1 else 0)
            && input[1..3] == Pack16(|chunk|)
            && input[3..5] == Pack16(65_535 - |chunk|)
            && input[5..5 + |chunk|] == chunk
            && input[5 + |chunk|..] == rest
  {
    ComplementIs(|chunk|);
  }

  /** The decoder stops after a final block. */
  lemma InflateFinal(chunk: Bytes, rest: Bytes, input: Bytes)
    requires |chunk| <= CHUNK && input == Block(chunk, true) + rest
    ensures Inflate(input) == Some(Inflated(chunk, 1, rest))
  {
    BlockLayout(chunk, true, rest);
    Unpack16Pack16(|chunk|);
    Unpack16Pack16(65_535 - |chunk|);
  }

  /** After another block it goes on. */
  lemma InflateNext(chunk: Bytes, rest: Bytes, input: Bytes, more: Inflated)
    requires |chunk| <= CHUNK && input == Block(chunk, false) + rest && Inflate(rest) == Some(more)
    ensures Inflate(input) == Some(Inflated(chunk + more.payload, more.blocks + 1, more.rest))
  {
    BlockLayout(chunk, false, rest);
    Unpack16Pack16(|chunk|);
    Unpack16Pack16(65_535 - |chunk|);
  }

  /** One block per chunk, and one for an empty payload. */
  function BlockCount(length: nat): nat {
    if length <= CHUNK then 1 else 1 + BlockCount(length - CHUNK)
  }

  lemma {:induction false} BlockCountIs(length: nat)
    requires length > 0
    ensures BlockCount(length) == (length + CHUNK - 1) / CHUNK
  {
    if length > CHUNK {
      BlockCountIs(length - CHUNK);
    }
  }

  /** Inflating the blocks of a payload gives the payload, and reads every block that was written:
      the first final block is the last one, and there is one even for an empty payload. */
  lemma {:induction false} InflateBlocks(payload: Bytes, rest: Bytes, input: Bytes)
    requires input == Blocks(payload) + rest
    ensures Inflate(input) == Some(Inflated(payload, BlockCount(|payload|), rest))
    decreases |payload|, 0
  {
    if |payload| <= CHUNK {
      InflateFinal(payload, rest, input);
    } else {
      InflateMore(payload[..CHUNK], payload[CHUNK..], rest, input);
      assert payload[..CHUNK] + payload[CHUNK..] == payload;
    }
  }

  lemma Associates(a: Bytes, b: Bytes, c: Bytes)
    ensures a + b + c == a + (b + c)
  {
  }

  lemma {:induction false} InflateMore(first: Bytes, more: Bytes, rest: Bytes, input: Bytes)
    requires |first| == CHUNK && input == Block(first, false) + Blocks(more) + rest
    ensures Inflate(input) == Some(Inflated(first + more, BlockCount(|more|) + 1, rest))
    decreases |more|, 1
  {
    InflateBlocks(more, rest, Blocks(more) + rest);
    Associates(Block(first, false), Blocks(more), rest);
    InflateNext(first, Blocks(more) + rest, input, Inflated(more, BlockCount(|more|), rest));
  }

  function Encoded(payload: Bytes, mtime: nat, crc: Bytes -> nat): Bytes
    requires mtime < WORD && crc(payload) < WORD
  {
    Head(mtime) + Blocks(payload) + Tail(payload, crc)
  }

  lemma HeadLayout(mtime: nat)
    requires mtime < WORD
    ensures |Head(mtime)| == 10 && Head(mtime)[..4] == HEADER && Head(mtime)[4..8] == Pack32(mtime)
  {
  }

  lemma EncodedLayout(payload: Bytes, mtime: nat, crc: Bytes -> nat)
    requires mtime < WORD && crc(payload) < WORD
    ensures var output := Encoded(payload, mtime, crc);
            && |output| >= 18 && output[..4] == HEADER && output[4..8] == Pack32(mtime)
            && output[10..] == Blocks(payload) + Tail(payload, crc)
    ensures Tail(payload, crc)[..4] == Pack32(crc(payload)) && Tail(payload, crc)[4..] == Pack32(|payload| % WORD)
  {
    var head, rest := Head(mtime), Blocks(payload) + Tail(payload, crc);
    BlocksNotEmpty(payload);
    HeadLayout(mtime);
    assert Encoded(payload, mtime, crc) == head + rest;
    assert (head + rest)[..4] == head[..4] && (head + rest)[4..8] == head[4..8] && (head + rest)[10..] == rest;
  }

  /** The header, byte by byte: the two identification bytes, stored with no optional field, the time
      with its least significant byte first, and an unknown operating system. */
  lemma HeaderBytes(payload: Bytes, mtime: nat, crc: Bytes -> nat)
    requires mtime < WORD && crc(payload) < WORD
    ensures var b := Encoded(payload, mtime, crc);
            && |b| >= 18 && b[..4] == [0x1f, 0x8b, 8, 0] && b[8] == 0 && b[9] == 255
            && b[4] as nat + 0x100 * b[5] as nat + 0x1_0000 * b[6] as nat + 0x100_0000 * b[7] as nat == mtime
  {
    EncodedLayout(payload, mtime, crc);
    Unpack32Pack32(mtime);
    var b := Encoded(payload, mtime, crc);
    assert b == Head(mtime) + (Blocks(payload) + Tail(payload, crc));
    assert b[4..8][0] == b[4] && b[4..8][1] == b[5] && b[4..8][2] == b[6] && b[4..8][3] == b[7];
  }

  /** Gzip round trip: for every payload, also the empty one, decoding gives it back. */
  lemma DecodeEncoded(payload: Bytes, mtime: nat, crc: Bytes -> nat)
    requires mtime < WORD && crc(payload) < WORD
    ensures Decode(Encoded(payload, mtime, crc), crc) == Some(Member(payload, mtime))
  {
    EncodedLayout(payload, mtime, crc);
    InflateBlocks(payload, Tail(payload, crc), Blocks(payload) + Tail(payload, crc));
    Unpack32Pack32(mtime);
    Unpack32Pack32(crc(payload));
    Unpack32Pack32(|payload| % WORD);
  }

  lemma BlocksNotEmpty(payload: Bytes)
    ensures |Blocks(payload)| >= 5
  {
  }

  /** So different payloads, or times, never encode alike. */
  lemma EncodedIsInjective(p: Bytes, m: nat, q: Bytes, n: nat, crc: Bytes -> nat)
    requires m < WORD && n < WORD && crc(p) < WORD && crc(q) < WORD
    requires Encoded(p, m, crc) == Encoded(q, n, crc)
    ensures p == q && m == n
  {
    DecodeEncoded(p, m, crc);
    DecodeEncoded(q, n, crc);
  }

  // ----- The encoder

  /** The chunks a payload is sliced into at multiples of the chunk size. */
  method Slice(payload: Bytes) returns (chunks: seq<Bytes>)
    ensures chunks == ChunksOf(payload)
  {
    chunks := [];
    var index := 0;
    while index < |payload|
      invariant 0 <= index && (index > |payload| ==> index - |payload| < CHUNK)
      invariant index <= |payload| ==> chunks + ChunksOf(payload[index..]) == ChunksOf(payload)
      invariant index > |payload| ==> chunks == ChunksOf(payload)
      decreases |payload| - index
    {
      var end := if index + CHUNK < |payload| then index + CHUNK else |payload|;
      ghost var rest := payload[index..];
      chunks := chunks + [payload[index..end]];
      if index + CHUNK <= |payload| {
        assert rest[..CHUNK] == payload[index..end] && rest[CHUNK..] == payload[index + CHUNK..];
      } else {
        assert rest == payload[index..end];
        assert ChunksOf(rest) == [rest];
      }
      index := index + CHUNK;
    }
    if index == |payload| {
      assert payload[index..] == [];
    }
  }

  function ChunksOf(payload: Bytes): (chunks: seq<Bytes>)
    ensures forall i :: 0 <= i < |chunks| ==> |chunks[i]| <= CHUNK
  {
    if payload == [] then []
    else if |payload| <= CHUNK then [payload]
    else [payload[..CHUNK]] + ChunksOf(payload[CHUNK..])
  }

  /** The blocks of some chunks, the last of them final. */
  function BlocksOf(chunks: seq<Bytes>): Bytes
    requires forall i :: 0 <= i < |chunks| ==> |chunks[i]| <= CHUNK
  {
    if chunks == [] then [] else Block(chunks[0], |chunks| == 1) + BlocksOf(chunks[1..])
  }

  lemma {:induction false} ChunksAreBlocks(payload: Bytes)
    ensures BlocksOf(if payload == [] then [[]] else ChunksOf(payload)) == Blocks(payload)
    decreases |payload|
  {
    if |payload| <= CHUNK {
      var chunks: seq<Bytes> := [payload];
      assert chunks[1..] == [];
      assert BlocksOf(chunks) == Block(payload, true) + [];
    } else {
      var more := payload[CHUNK..];
      ChunksAreBlocks(more);
      assert ChunksOf(payload)[1..] == ChunksOf(more) && |ChunksOf(more)| > 0;
    }
  }

  /** The loop over the chunks: a header of five bytes and the content of each, appended in place. */
  method AppendBlocks(output: Bytes, chunks: seq<Bytes>) returns (written: Bytes)
    requires forall i :: 0 <= i < |chunks| ==> |chunks[i]| <= CHUNK
    ensures written == output + BlocksOf(chunks)
  {
    written := output;
    assert chunks[0..] == chunks;
    for index := 0 to |chunks|
      invariant written + BlocksOf(chunks[index..]) == output + BlocksOf(chunks)
    {
      var chunk := chunks[index];
      ghost var before, rest := written, BlocksOf(chunks[index + 1..]);
      assert chunks[index..][1..] == chunks[index + 1..];
      ComplementIs(|chunk|);
      written := written + [if index == |chunks| - 1 then 1 else 0];
      written := written + (Pack16(|chunk|) + Pack16(Xor(65_535, |chunk|)));
      written := written + chunk;
      AppendBlock(before, chunk, index == |chunks| - 1, rest);
    }
    assert chunks[|chunks|..] == [];
    assert written + [] == written;
  }

  lemma AppendBlock(before: Bytes, chunk: Bytes, final: bool, rest: Bytes)
    requires |chunk| <= CHUNK && Xor(65_535, |chunk|) == 65_535 - |chunk|
    ensures before + [if final then 1 else 0] + (Pack16(|chunk|) + Pack16(Xor(65_535, |chunk|))) + chunk + rest
         == before + (Block(chunk, final) + rest)
  {
  }

  /** struct.pack refuses a time that does not fit 32 bits; nothing is written then. */
  method DeterministicGzip(payload: Bytes, mtime: int, crc: Bytes -> nat) returns (output: Option<Bytes>)
    requires crc(payload) < WORD
    ensures output.Some? <==> 0 <= mtime < WORD
    ensures output.Some? ==> output.value == Encoded(payload, mtime, crc)
    ensures output.Some? ==> Decode(output.value, crc) == Some(Member(payload, mtime))
  {
    if !(0 <= mtime < WORD) {
      return None;
    }
    var written := HEADER + Pack32(mtime) + TRAILER_OF_HEADER;
    var chunks := Slice(payload);
    if chunks == [] {
      chunks := [[]];
    }
    ChunksAreBlocks(payload);
    written := AppendBlocks(written, chunks);
    written := written + (Pack32(crc(payload)) + Pack32(|payload| % WORD));
    DecodeEncoded(payload, mtime, crc);
    return Some(written);
  }
}

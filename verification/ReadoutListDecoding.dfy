/** Reading a VM-USB stack back: the scripts that the encoding of the readout list tells apart. */
module ReadoutListDecoding {
  import opened Wrappers
  import opened ReadoutList

  // ---------------------------------------------------------------------
  // What a script asks for

  datatype Op =
    | ReadOp(width: Width, address: bv32, amod: bv32)
    | WriteOp(width: Width, address: bv32, amod: bv32, value: bv32)
    | DelayOp(clocks: bv8)
    | MarkerOp(value: bv32)
    | BlockOp(fifo: bool, address: bv32, amod: bv32, transfers: bv32)
    | WriteRegisterOp(address: bv32, value: bv32)
    | ReadRegisterOp(address: bv32)

  /** The operation a command stands for: aligned address, six bits of address modifier, data as
      wide as the access, and the number of transfers it names. */
  function Meaning(c: Command): seq<Op> {
    match c
    case Silent => []
    case Read(w, address, amod) => [ReadOp(w, Aligned(w, address), Amod(amod))]
    case Write(w, address, amod, value) =>
      [WriteOp(w, Aligned(w, address), Amod(amod), if w == D16 then value & 0xffff else value)]
    case Wait(milliseconds) => [DelayOp(Clocks(milliseconds))]
    case Marker(value) => [MarkerOp(value)]
    case BlockRead(wide, fifo, address, amod, transfers) =>
      [BlockOp(fifo, address, Amod(BlockAmod(wide, amod)), transfers)]
    case WriteRegister(address, value) => [WriteRegisterOp(address, value)]
    case ReadRegister(address) => [ReadRegisterOp(address)]
  }

  function Aligned(w: Width, address: bv32): bv32 {
    if w == D16 then address & 0xfffffffe else address & 0xfffffffc
  }

  function Meanings(script: seq<Command>): seq<Op> {
    if script == [] then [] else Meaning(script[0]) + Meanings(script[1..])
  }

  // ---------------------------------------------------------------------
  // Decoding

  datatype Decoded = Decoded(op: Op, length: nat)

  /** Marker entries at the front. A 16 bit read is followed by one of padding, a marker command
      adds two. */
  function MarkersAhead(ws: seq<bv32>): nat {
    if |ws| >= 2 && ws[0] == MODE_MARKER then 1 + MarkersAhead(ws[2..]) else 0
  }

  /** Reads without a transfer count. */
  function DecodeUncounted(mode: bv32, ws: seq<bv32>): Decoded
    requires |ws| >= 2
  {
    var amod, address := mode & MODE_AM_MASK, ws[1];
    var uncounted := if IsMblt(amod) then 256 else 0;
    if mode & MODE_NA != 0 then Decoded(BlockOp(true, address, amod, uncounted), 2)
    else if address & 1 != 0 && MarkersAhead(ws[2..]) % 2 == 1 then
      Decoded(ReadOp(D16, address & 0xfffffffe, amod), 4)
    else if address & 3 == 0 && uncounted == 0 then Decoded(ReadOp(D32, address, amod), 2)
    else Decoded(BlockOp(false, address, amod, uncounted), 2)
  }

  function DecodeRead(mode: bv32, ws: seq<bv32>): Option<Decoded>
    requires |ws| >= 1
  {
    var bits, amod, fifo := mode >> 24, mode & MODE_AM_MASK, mode & MODE_NA != 0;
    if |ws| < 2 then None
    else if bits == 0 then Some(DecodeUncounted(mode, ws))
    else if bits != 0xff then Some(Decoded(BlockOp(fifo, ws[1], amod, bits), 2))
    else if |ws| < 3 then None
    else Some(Decoded(BlockOp(fifo, ws[2], amod, ws[1]), 3))
  }

  function DecodeWrite(mode: bv32, ws: seq<bv32>): Option<Decoded>
    requires |ws| >= 1
  {
    var amod := mode & MODE_AM_MASK;
    if |ws| < 3 then None
    else if ws[1] & 1 != 0 then Some(Decoded(WriteOp(D16, ws[1] & 0xfffffffe, amod, ws[2]), 3))
    else Some(Decoded(WriteOp(D32, ws[1], amod, ws[2]), 3))
  }

  function DecodeOne(ws: seq<bv32>): Option<Decoded>
    requires ws != []
  {
    var mode := ws[0];
    if mode & MODE_DELAY != 0 then Some(Decoded(DelayOp((mode & 0xff) as bv8), 1))
    else if mode & MODE_MARKER != 0 then
      if |ws| < 4 then None else Some(Decoded(MarkerOp(ws[1] | (ws[3] << 16)), 4))
    else if mode & MODE_SLF != 0 then
      if mode & MODE_NW != 0 then
        if |ws| < 2 then None else Some(Decoded(ReadRegisterOp(ws[1]), 2))
      else if |ws| < 3 then None else Some(Decoded(WriteRegisterOp(ws[1], ws[2]), 3))
    else if mode & MODE_NW != 0 then DecodeRead(mode, ws)
    else DecodeWrite(mode, ws)
  }

  function Decode(ws: seq<bv32>): Option<seq<Op>> {
    if ws == [] then Some([])
    else
      var d := DecodeOne(ws);
      if d.None? || d.value.length == 0 || d.value.length > |ws| then None
      else
        var rest := Decode(ws[d.value.length..]);
        if rest.None? then None else Some([d.value.op] + rest.value)
  }

  // ---------------------------------------------------------------------
  // Unique decodability

  /** The stack words do not tell a 32 bit read with a 64 bit block modifier from a block read of
      256 transfers, a block read without transfers with such a modifier from the same, nor one
      without transfers at an aligned address from a 32 bit read. */
  predicate Distinct(c: Command) {
    match c
    case Read(w, _, amod) => w == D32 ==> !IsMblt(Amod(amod))
    case BlockRead(wide, fifo, address, amod, transfers) =>
      transfers == 0 ==> !IsMblt(Amod(BlockAmod(wide, amod))) && (fifo || address & 3 != 0)
    case _ => true
  }

  lemma PairOfMarkers(value: bv32, rest: seq<bv32>)
    ensures MarkersAhead(MarkerWords(value) + rest) == 1 + MarkersAhead(rest)
  {
    assert (MarkerWords(value) + rest)[2..] == rest;
  }

  /** The first stack word of a command. */
  function Head(c: Command): bv32
    requires !c.Silent?
  {
    match c
    case Read(_, _, amod) => MODE_NW | Amod(amod)
    case Write(_, _, amod, _) => Amod(amod)
    case Wait(milliseconds) => MODE_DELAY | (Clocks(milliseconds) as bv32)
    case Marker(_) => MODE_MARKER
    case BlockRead(_, _, _, _, _) => BlockHead(c)
    case WriteRegister(_, _) => MODE_SLF
    case ReadRegister(_) => MODE_NW | MODE_SLF
  }

  lemma HeadIsFirst(c: Command)
    requires !c.Silent?
    ensures |Words(c)| >= 1 && Words(c)[0] == Head(c)
  {
    if c.BlockRead? {
      BlockWordsAre(c);
    }
  }

  lemma DelayMode(clocks: bv8)
    ensures (MODE_DELAY | (clocks as bv32)) & MODE_MARKER == 0
  {
  }

  /** Only marker entries have the marker bit. */
  lemma NoMarkerFirst(c: Command)
    requires !c.Marker? && !c.Silent?
    ensures Head(c) & MODE_MARKER == 0
  {
    match c
    case BlockRead(_, _, _, _, _) => BlockHeadBits(c);
    case Read(_, _, amod) => SingleMode(amod);
    case Write(_, _, amod, _) => SingleMode(amod);
    case Wait(milliseconds) => DelayMode(Clocks(milliseconds));
    case _ =>
  }

  lemma NotTheMarker(w: bv32)
    requires w & MODE_MARKER == 0
    ensures w != MODE_MARKER
  {
    assert MODE_MARKER & MODE_MARKER != 0;
  }

  lemma MarkersInFront(c: Command, rest: seq<bv32>)
    requires MarkersAhead(rest) % 2 == 0
    ensures MarkersAhead(Words(c) + rest) % 2 == 0
  {
    if c.Marker? {
      PairOfMarkers(c.value, MarkerWords(c.value >> 16) + rest);
      PairOfMarkers(c.value >> 16, rest);
      assert Words(c) + rest == MarkerWords(c.value) + (MarkerWords(c.value >> 16) + rest);
    } else if c.Silent? {
      assert Words(c) + rest == rest;
    } else {
      HeadIsFirst(c);
      NoMarkerFirst(c);
      NotTheMarker(Head(c));
      assert (Words(c) + rest)[0] == Head(c);
    }
  }

  /** A stack has an even number of markers at its front. */
  lemma {:induction false} MarkersComeInPairs(script: seq<Command>)
    ensures MarkersAhead(Encode(script)) % 2 == 0
  {
    if script != [] {
      MarkersComeInPairs(script[1..]);
      MarkersInFront(script[0], Encode(script[1..]));
    }
  }

  // One lemma for each group of commands: its words decode to its meaning, whatever follows.

  ghost predicate Decodes(c: Command, rest: seq<bv32>) {
    && Words(c) != [] && |Meaning(c)| == 1
    && DecodeOne(Words(c) + rest) == Some(Decoded(Meaning(c)[0], |Words(c)|))
  }

  lemma SingleMode(amod: bv8)
    ensures var m := Amod(amod);
            m & MODE_DELAY == 0 && m & MODE_MARKER == 0 && m & MODE_SLF == 0 && m & MODE_NW == 0
                  && m & MODE_AM_MASK == m
    ensures var m := MODE_NW | Amod(amod);
            && m & MODE_DELAY == 0 && m & MODE_MARKER == 0 && m & MODE_SLF == 0 && m & MODE_NW != 0
            && m & MODE_NA == 0 && m >> 24 == 0 && m & MODE_AM_MASK == Amod(amod)
  {
  }

  lemma AddressBits(address: bv32)
    ensures ((address & 0xfffffffe) | NOT_LONG) & 1 != 0
    ensures ((address & 0xfffffffe) | NOT_LONG) & 0xfffffffe == address & 0xfffffffe
    ensures (address & 0xfffffffc) & 1 == 0 && (address & 0xfffffffc) & 3 == 0
  {
  }

  lemma DecodesRead32(c: Command, rest: seq<bv32>)
    requires c.Read? && c.width == D32 && Distinct(c)
    ensures Decodes(c, rest)
  {
    var ws := Words(c) + rest;
    SingleMode(c.amod);
    AddressBits(c.address);
    assert ws[0] == MODE_NW | Amod(c.amod) && ws[1] == c.address & 0xfffffffc;
    assert DecodeOne(ws) == DecodeRead(ws[0], ws);
    assert DecodeRead(ws[0], ws) == Some(DecodeUncounted(ws[0], ws));
  }

  lemma DecodesRead16(c: Command, rest: seq<bv32>)
    requires c.Read? && c.width == D16 && MarkersAhead(rest) % 2 == 0
    ensures Decodes(c, rest)
  {
    PairOfMarkers(0, rest);
    assert (Words(c) + rest)[2..] == MarkerWords(0) + rest;
  }

  lemma DecodesWrite16(c: Command, rest: seq<bv32>)
    requires c.Write? && c.width == D16
    ensures Decodes(c, rest)
  {
    var ws := Words(c) + rest;
    SingleMode(c.amod);
    AddressBits(c.address);
    assert Words(c) == [Amod(c.amod), (c.address & 0xfffffffe) | NOT_LONG, c.value & 0xffff];
    assert DecodeOne(ws) == DecodeWrite(ws[0], ws);
  }

  lemma DecodesWrite32(c: Command, rest: seq<bv32>)
    requires c.Write? && c.width == D32
    ensures Decodes(c, rest)
  {
    var ws := Words(c) + rest;
    SingleMode(c.amod);
    AddressBits(c.address);
    assert Words(c) == [Amod(c.amod), c.address & 0xfffffffc, c.value];
    assert DecodeOne(ws) == DecodeWrite(ws[0], ws);
  }

  lemma DecodesMarker(c: Command, rest: seq<bv32>)
    requires c.Marker?
    ensures Decodes(c, rest)
  {
  }

  lemma DecodesOther(c: Command, rest: seq<bv32>)
    requires c.Wait? || c.WriteRegister? || c.ReadRegister?
    ensures Decodes(c, rest)
  {
  }

  /** What the mode word of a block read tells the decoder. */
  predicate BlockBits(mode: bv32, fifo: bool, amod: bv8, bits: bv8) {
    && mode & MODE_DELAY == 0 && mode & MODE_MARKER == 0 && mode & MODE_SLF == 0 && mode & MODE_NW != 0
    && (mode & MODE_NA != 0 <==> fifo) && mode >> 24 == bits as bv32 && mode & MODE_AM_MASK == Amod(amod)
  }

  lemma BlockModeBits(fifo: bool, amod: bv8, bits: bv8)
    ensures BlockBits(WithCount(BlockMode(fifo, amod), bits), fifo, amod, bits)
    ensures BlockMode(fifo, amod) & MODE_AM_MASK == Amod(amod)
  {
  }

  lemma TransferField(mode: bv32, transfers: bv32)
    ensures var bits := TransferBits(mode, transfers);
            && (bits != 0 && bits != 0xff ==> bits as bv32 == transfers)
            && (bits == 0 ==> transfers == 0 || (transfers == 256 && IsMblt(mode & MODE_AM_MASK)))
  {
  }

  function BlockCount(c: Command): bv8
    requires c.BlockRead?
  {
    TransferBits(BlockMode(c.fifo, BlockAmod(c.wide, c.amod)), c.transfers)
  }

  function BlockHead(c: Command): bv32
    requires c.BlockRead?
  {
    WithCount(BlockMode(c.fifo, BlockAmod(c.wide, c.amod)), BlockCount(c))
  }

  lemma BlockWordsAre(c: Command)
    requires c.BlockRead?
    ensures Words(c) == if BlockCount(c) == 0xff then [BlockHead(c), c.transfers, c.address]
                        else [BlockHead(c), c.address]
  {
    var mode := BlockMode(c.fifo, BlockAmod(c.wide, c.amod));
    assert Words(c) == BlockWords(c.address, c.transfers, mode);
  }

  lemma BlockHeadBits(c: Command)
    requires c.BlockRead?
    ensures BlockBits(BlockHead(c), c.fifo, BlockAmod(c.wide, c.amod), BlockCount(c))
  {
    BlockModeBits(c.fifo, BlockAmod(c.wide, c.amod), BlockCount(c));
  }

  /** The decoder recognises a block read by its mode word. */
  lemma BlockIsRead(c: Command, rest: seq<bv32>) returns (mode: bv32)
    requires c.BlockRead?
    ensures mode >> 24 == BlockCount(c) as bv32 && (mode & MODE_NA != 0 <==> c.fifo)
    ensures mode & MODE_AM_MASK == Amod(BlockAmod(c.wide, c.amod))
    ensures DecodeOne(Words(c) + rest) == DecodeRead(mode, Words(c) + rest)
    ensures Words(c) == if BlockCount(c) == 0xff then [mode, c.transfers, c.address] else [mode, c.address]
  {
    mode := BlockHead(c);
    BlockWordsAre(c);
    BlockHeadBits(c);
    var ws := Words(c) + rest;
    assert ws[0] == mode;
  }

  lemma DecodesCounted(c: Command, rest: seq<bv32>)
    requires c.BlockRead? && BlockCount(c) != 0
    ensures Decodes(c, rest)
  {
    var mode := BlockIsRead(c, rest);
    var ws := Words(c) + rest;
    TransferField(BlockMode(c.fifo, BlockAmod(c.wide, c.amod)), c.transfers);
    if BlockCount(c) == 0xff {
      assert ws[1] == c.transfers && ws[2] == c.address;
    } else {
      assert ws[1] == c.address;
    }
  }

  lemma DecodesUncounted(c: Command, rest: seq<bv32>)
    requires c.BlockRead? && Distinct(c) && MarkersAhead(rest) % 2 == 0 && BlockCount(c) == 0
    ensures Decodes(c, rest)
  {
    var mode := BlockIsRead(c, rest);
    var ws := Words(c) + rest;
    TransferField(BlockMode(c.fifo, BlockAmod(c.wide, c.amod)), c.transfers);
    BlockModeBits(c.fifo, BlockAmod(c.wide, c.amod), 0);
    assert ws[1] == c.address && ws[2..] == rest;
  }

  lemma DecodesCommand(c: Command, rest: seq<bv32>)
    requires !c.Silent? && Distinct(c) && MarkersAhead(rest) % 2 == 0
    ensures Decodes(c, rest)
  {
    match c
    case Read(w, _, _) => if w == D16 { DecodesRead16(c, rest); } else { DecodesRead32(c, rest); }
    case Write(w, _, _, _) => if w == D16 { DecodesWrite16(c, rest); } else { DecodesWrite32(c, rest); }
    case Marker(_) => DecodesMarker(c, rest);
    case BlockRead(_, _, _, _, _) =>
      if BlockCount(c) == 0 { DecodesUncounted(c, rest); } else { DecodesCounted(c, rest); }
    case _ => DecodesOther(c, rest);
  }

  ghost predicate AllDistinct(script: seq<Command>) { forall c :: c in script ==> Distinct(c) }

  /** The encoding is uniquely decodable: the words of a script, read back, are what it means. */
  lemma {:induction false} DecodeInvertsEncode(script: seq<Command>)
    requires AllDistinct(script)
    ensures Decode(Encode(script)) == Some(Meanings(script))
  {
    if script != [] {
      var c, rest := script[0], Encode(script[1..]);
      DecodeInvertsEncode(script[1..]);
      if c.Silent? {
        assert Encode(script) == rest;
        assert Meanings(script) == Meanings(script[1..]);
      } else {
        MarkersComeInPairs(script[1..]);
        DecodesCommand(c, rest);
        assert (Words(c) + rest)[|Words(c)|..] == rest;
        assert Meaning(c) == [Meaning(c)[0]];
      }
    }
  }

  /** Scripts with the same stack words ask for the same. */
  lemma SameWordsSameMeaning(a: seq<Command>, b: seq<Command>)
    requires AllDistinct(a) && AllDistinct(b) && Encode(a) == Encode(b)
    ensures Meanings(a) == Meanings(b)
  {
    DecodeInvertsEncode(a);
    DecodeInvertsEncode(b);
  }

  /** `d` is encoded like `c` and asks for something else. */
  ghost predicate Confused(c: Command, d: Command) {
    Distinct(d) && Words(d) == Words(c) && Meaning(d) != Meaning(c)
  }

  lemma ConfusedBlock(c: Command) returns (d: Command)
    requires c.BlockRead? && !Distinct(c)
    ensures Confused(c, d)
  {
    var amod := BlockAmod(c.wide, c.amod);
    if IsMblt(Amod(amod)) {
      d := c.(transfers := 256);
    } else {
      d := Read(D32, c.address, amod);
    }
  }

  lemma ConfusedRead(c: Command) returns (d: Command)
    requires c.Read? && !Distinct(c)
    ensures Confused(c, d)
  {
    d := BlockRead(true, false, c.address & 0xfffffffc, c.amod, 256);
  }

  lemma OneCommand(c: Command)
    ensures Encode([c]) == Words(c) && Meanings([c]) == Meaning(c)
  {
    assert Encode([c][1..]) == [] && Meanings([c][1..]) == [];
  }

  /** Exactly these commands decode: every other one has the words of one of them and asks for
      something else. */
  lemma DistinctIff(c: Command)
    ensures Distinct(c) <==> !exists d :: Confused(c, d)
  {
    if Distinct(c) {
      forall d | Confused(c, d) ensures false {
        OneCommand(c);
        OneCommand(d);
        SameWordsSameMeaning([c], [d]);
      }
    } else {
      var d;
      if c.Read? { d := ConfusedRead(c); } else { d := ConfusedBlock(c); }
      assert Confused(c, d);
    }
  }

  // ---------------------------------------------------------------------
  // What block reads and waits come to

  /** The stack of a block read command names a 64 bit block modifier exactly if the command does or
      asks for 64 bits in the A32 mode of scripts; in that mode it is the block modifier of its width,
      in A24 that of 32 bits, and any other modifier stays. */
  lemma BlockModifierIs(c: Command)
    requires c.BlockRead? && Distinct(c)
    ensures var m := Amod(BlockAmod(c.wide, c.amod));
            && Decode(Encode([c])) == Some([BlockOp(c.fifo, c.address, m, c.transfers)])
            && (IsMblt(m) <==> (c.wide && c.amod == A32) || IsMblt(Amod(c.amod)))
            && (c.amod == A32 ==> m == if c.wide then 0x0c else 0x0f)
            && (c.amod == A24 && !c.wide ==> m == 0x3f)
            && (c.amod != A32 && (c.amod != A24 || c.wide) ==> m == Amod(c.amod))
  {
    OneCommand(c);
    DecodeInvertsEncode([c]);
  }

  predicate Is64BitBlock(amod: bv32) { amod == 0x08 || amod == 0x0c }

  /** A block read takes a word of its own for the count exactly if the count does not fit into eight
      bits: 0xff announces that word, and 64 bit blocks have 0 for 256. */
  lemma CountWordIff(c: Command)
    requires c.BlockRead?
    ensures var m := Amod(BlockAmod(c.wide, c.amod));
            && |Words(c)| in {2, 3}
            && (|Words(c)| == 3 <==> c.transfers >= 255 && !(c.transfers == 256 && Is64BitBlock(m)))
  {
    BlockWordsAre(c);
    BlockModeBits(c.fifo, BlockAmod(c.wide, c.amod), 0);
    CountFieldIs255Iff(BlockMode(c.fifo, BlockAmod(c.wide, c.amod)), c.transfers);
  }

  lemma CountFieldIs255Iff(mode: bv32, transfers: bv32)
    ensures TransferBits(mode, transfers) == 0xff <==>
            transfers >= 255 && !(transfers == 256 && Is64BitBlock(mode & MODE_AM_MASK))
  {
  }

  const NS_PER_CLOCK := 200
  const NS_PER_MS := 1_000_000

  /** A wait lasts as long as asked for only if that is no time at all: a millisecond counts as 1000 ns,
      and the clocks are cut off to eight bits. Up to 51 ms it is a thousandth. */
  lemma WaitLastsIff(milliseconds: Unsigned)
    ensures Decode(Encode([Wait(milliseconds)])) == Some([DelayOp(ClockCount(milliseconds) as bv8)])
    ensures var ns := ClockCount(milliseconds) * NS_PER_CLOCK;
            && (ns == milliseconds * NS_PER_MS <==> milliseconds == 0)
            && ns <= milliseconds * NS_PER_MS
            && (milliseconds <= 51 ==> 1000 * ns == milliseconds * NS_PER_MS)
  {
    OneCommand(Wait(milliseconds));
    DecodeInvertsEncode([Wait(milliseconds)]);
    ClocksBound(milliseconds);
  }

  lemma ClocksBound(milliseconds: Unsigned)
    ensures ClockCount(milliseconds) * NS_PER_CLOCK <= milliseconds * 1000
    ensures milliseconds <= 51 ==> ClockCount(milliseconds) == 5 * milliseconds
  {
  }

  // ---------------------------------------------------------------------
  // Appending, and the block modifier check

  lemma {:induction false} MeaningsConcat(a: seq<Command>, b: seq<Command>)
    ensures Meanings(a + b) == Meanings(a) + Meanings(b)
  {
    if a == [] {
      assert a + b == b;
    } else {
      MeaningsConcat(a[1..], b);
      FirstOfConcat(a, b);
      Regroup(Meaning(a[0]), Meanings(a[1..]), Meanings(b));
    }
  }

  /** A list appended to another one asks for both, one after the other. */
  lemma AppendedListsDecode(a: seq<Command>, b: seq<Command>)
    requires AllDistinct(a) && AllDistinct(b)
    ensures Decode(Encode(a) + Encode(b)) == Some(Meanings(a) + Meanings(b))
  {
    EncodeConcat(a, b);
    MeaningsConcat(a, b);
    DecodeInvertsEncode(a + b);
  }

  predicate IsBlockAmod(amod: bv32) {
    amod == 0x0b || amod == 0x08 || amod == 0x0f || amod == 0x0c || amod == 0x3b || amod == 0x21
  }

  /** The low byte of the mode word. */
  function AssertedModifier(c: Command): bv32
    requires c.BlockRead?
  {
    BlockMode(c.fifo, BlockAmod(c.wide, c.amod)) & 0xff
  }

  /** The modifier that the encoder asserts to be one for block transfers is one exactly if the
      command names the A32 mode of scripts or such a modifier; the A24 mode is replaced by a block
      modifier that the assertion does not know. */
  lemma BlockAssertionIff(c: Command)
    requires c.BlockRead?
    ensures IsBlockAmod(AssertedModifier(c)) <==> c.amod == A32 || IsBlockAmod(Amod(c.amod))
    ensures c.amod == A24 ==> !IsBlockAmod(AssertedModifier(c))
  {
    var amod := BlockAmod(c.wide, c.amod);
    assert BlockMode(c.fifo, amod) & 0xff == Amod(amod);
  }
}

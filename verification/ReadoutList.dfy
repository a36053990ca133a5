/** The VM-USB readout list: VME script commands as 32 bit stack words. */
module ReadoutList {

  // ---------------------------------------------------------------------
  // Scripts

  const WRAP := 0x1_0000_0000

  /** An unsigned integer of 32 bits. */
  type Unsigned = x: int | 0 <= x < WRAP

  datatype Width = D16 | D32

  datatype Command =
    | Silent                                            // the commands that add nothing to the stack
    | Read(width: Width, address: bv32, amod: bv8)
    | Write(width: Width, address: bv32, amod: bv8, value: bv32)
    | Wait(milliseconds: Unsigned)
    | Marker(value: bv32)
    | BlockRead(wide: bool, fifo: bool, address: bv32, amod: bv8, transfers: bv32)   // BLT or, if wide, MBLT
    | WriteRegister(address: bv32, value: bv32)
    | ReadRegister(address: bv32)

  const A32: bv8 := 0x0d
  const A24: bv8 := 0x3d
  const BLT32: bv8 := 0x0f
  const MBLT64: bv8 := 0x0c
  const A24_PRIV_BLOCK: bv8 := 0x3f
  const A32_USER_BLOCK64: bv8 := 0x08

  // ---------------------------------------------------------------------
  // Stack words

  const MODE_NW: bv32 := 0x100
  const MODE_NA: bv32 := 0x400
  const MODE_SLF: bv32 := 0x1000
  const MODE_MARKER: bv32 := 0x2000
  const MODE_DELAY: bv32 := 0x8000
  const MODE_AM_MASK: bv32 := 0x3f
  const NOT_LONG: bv32 := 1

  function Amod(amod: bv8): bv32 { (amod as bv32) & MODE_AM_MASK }

  /** The address modifier of a block transfer: scripts give that of the single transfer. */
  function BlockAmod(wide: bool, amod: bv8): bv8 {
    if wide then (if amod == A32 then MBLT64 else amod)
    else if amod == A32 then BLT32
    else if amod == A24 then A24_PRIV_BLOCK
    else amod
  }

  predicate IsMblt(mode: bv32) { mode == (A32_USER_BLOCK64 as bv32) || mode == (MBLT64 as bv32) }

  /** Truncation to eight bits. */
  function LowByte(x: bv32): bv8 { (x & 0xff) as bv8 }

  /** The mode word with a transfer count in its top byte. */
  function WithCount(mode: bv32, bits: bv8): bv32 { mode | ((bits as bv32) << 24) }

  function TransferBits(mode: bv32, transfers: bv32): bv8 {
    if IsMblt(mode & MODE_AM_MASK) then
      if transfers == 256 then 0 else if transfers > 256 then 0xff else LowByte(transfers)
    else if transfers > 254 then 0xff
    else LowByte(transfers)
  }

  function MarkerWords(value: bv32): seq<bv32> { [MODE_MARKER, value & 0xffff] }

  function BlockWords(base: bv32, transfers: bv32, mode: bv32): seq<bv32> {
    var bits := TransferBits(mode, transfers);
    if bits == 0xff then [WithCount(mode, bits), transfers, base] else [WithCount(mode, bits), base]
  }

  function BlockMode(fifo: bool, amod: bv8): bv32 {
    (if fifo then MODE_NA else 0) | Amod(amod) | MODE_NW
  }

  /** What one command adds to the stack. */
  function Words(c: Command): seq<bv32> {
    match c
    case Silent => []
    case Read(D16, address, amod) =>
      [MODE_NW | Amod(amod), (address & 0xfffffffe) | NOT_LONG] + MarkerWords(0)
    case Read(D32, address, amod) => [MODE_NW | Amod(amod), address & 0xfffffffc]
    case Write(D16, address, amod, value) => [Amod(amod), (address & 0xfffffffe) | NOT_LONG, value & 0xffff]
    case Write(D32, address, amod, value) => [Amod(amod), address & 0xfffffffc, value]
    case Wait(milliseconds) => [MODE_DELAY | (Clocks(milliseconds) as bv32)]
    case Marker(value) => MarkerWords(value) + MarkerWords(value >> 16)
    case BlockRead(wide, fifo, address, amod, transfers) =>
      BlockWords(address, transfers, BlockMode(fifo, BlockAmod(wide, amod)))
    case WriteRegister(address, value) => [MODE_SLF, address, value]
    case ReadRegister(address) => [MODE_NW | MODE_SLF, address]
  }

  /** Delay clocks, computed in 32 bits and cut off to a byte. */
  function Clocks(milliseconds: Unsigned): bv8 { ClockCount(milliseconds) as bv8 }

  function ClockCount(milliseconds: Unsigned): (n: nat)
    ensures n < 0x100
  {
    milliseconds * 1000 % WRAP / 200 % 0x100
  }

  function Encode(script: seq<Command>): seq<bv32> {
    if script == [] then [] else Words(script[0]) + Encode(script[1..])
  }

  lemma {:induction false} EncodeConcat(a: seq<Command>, b: seq<Command>)
    ensures Encode(a + b) == Encode(a) + Encode(b)
  {
    if a == [] {
      assert a + b == b;
    } else {
      EncodeConcat(a[1..], b);
      FirstOfConcat(a, b);
      Regroup(Words(a[0]), Encode(a[1..]), Encode(b));
    }
  }

  lemma FirstOfConcat<T>(a: seq<T>, b: seq<T>)
    requires a != []
    ensures a + b != [] && (a + b)[0] == a[0] && (a + b)[1..] == a[1..] + b
  {
  }

  lemma Regroup<T>(x: seq<T>, y: seq<T>, z: seq<T>)
    ensures (x + y) + z == x + (y + z)
  {
  }

  lemma EncodeOneMore(script: seq<Command>, i: nat)
    requires i < |script|
    ensures Encode(script[..i + 1]) == Encode(script[..i]) + Words(script[i])
  {
    assert script[..i + 1] == script[..i] + [script[i]];
    EncodeConcat(script[..i], [script[i]]);
    assert Encode([script[i]][1..]) == [];
  }

  // ---------------------------------------------------------------------
  // The class

  class CVMUSBReadoutList {
    var list: seq<bv32>

    constructor ()
      ensures list == []
    {
      list := [];
    }

    constructor FromWords(words: seq<bv32>)
      ensures list == words
    {
      list := words;
    }

    constructor FromScript(script: seq<Command>)
      ensures list == Encode(script)
    {
      list := [];
      new;
      for i := 0 to |script|
        invariant list == Encode(script[..i])
      {
        EncodeOneMore(script, i);
        AddScriptCommand(script[i]);
      }
      assert script[..|script|] == script;
    }

    method Push(word: bv32)
      modifies this
      ensures list == old(list) + [word]
    {
      list := list + [word];
    }

    method Append(other: CVMUSBReadoutList)
      modifies this
      ensures list == old(list) + old(other.list)
    {
      list := list + other.list;
    }

    method AddRegisterRead(address: bv32)
      modifies this
      ensures list == old(list) + Words(ReadRegister(address))
    {
      Push(MODE_NW | MODE_SLF);
      Push(address);
    }

    method AddRegisterWrite(address: bv32, data: bv32)
      modifies this
      ensures list == old(list) + Words(WriteRegister(address, data))
    {
      Push(MODE_SLF);
      Push(address);
      Push(data);
    }

    method AddWrite32(address: bv32, amod: bv8, datum: bv32)
      modifies this
      ensures list == old(list) + Words(Write(D32, address, amod, datum))
    {
      Push((amod as bv32) & MODE_AM_MASK);
      Push(address & 0xfffffffc);
      Push(datum);
    }

    method AddWrite16(address: bv32, amod: bv8, datum: bv16)
      modifies this
      ensures forall value: bv32 :: datum as bv32 == value & 0xffff ==>
                list == old(list) + Words(Write(D16, address, amod, value))
    {
      Push((amod as bv32) & MODE_AM_MASK);
      Push((address & 0xfffffffe) | NOT_LONG);
      Push(datum as bv32);
    }

    method AddRead32(address: bv32, amod: bv8)
      modifies this
      ensures list == old(list) + Words(Read(D32, address, amod))
    {
      Push(MODE_NW | ((amod as bv32) & MODE_AM_MASK));
      Push(address & 0xfffffffc);
    }

    /** Without the padding that a script command adds. */
    method AddRead16(address: bv32, amod: bv8)
      modifies this
      ensures list + MarkerWords(0) == old(list) + Words(Read(D16, address, amod))
      ensures |list| == |old(list)| + 2
    {
      Push(MODE_NW | ((amod as bv32) & MODE_AM_MASK));
      Push((address & 0xfffffffe) | NOT_LONG);
    }

    method AddMarker(value: bv32)
      modifies this
      ensures list == old(list) + MarkerWords(value)
    {
      Push(MODE_MARKER);
      Push(value & 0xffff);
    }

    method AddDelay(clocks: bv8)
      modifies this
      ensures list == old(list) + [MODE_DELAY | (clocks as bv32)]
    {
      Push(MODE_DELAY | (clocks as bv32));
    }

    method AddBlockRead32(address: bv32, amod: bv8, transfers: bv32)
      modifies this
      ensures list == old(list) + BlockWords(address, transfers, BlockMode(false, amod))
    {
      AddBlockRead(address, transfers, ((amod as bv32) & MODE_AM_MASK) | MODE_NW);
    }

    method AddFifoRead32(address: bv32, amod: bv8, transfers: bv32)
      modifies this
      ensures list == old(list) + BlockWords(address, transfers, BlockMode(true, amod))
    {
      AddBlockRead(address, transfers, MODE_NA | ((amod as bv32) & MODE_AM_MASK) | MODE_NW);
    }

    method AddBlockRead(base: bv32, transfers: bv32, startingMode: bv32)
      modifies this
      ensures list == old(list) + BlockWords(base, transfers, startingMode)
    {
      var transferBits := CountField(transfers, startingMode);
      var mode := WithCount(startingMode, transferBits);
      Push(mode);
      if transferBits == 0xff {
        Push(transfers);
      }
      Push(base);
      assert list == old(list) + if transferBits == 0xff then [mode, transfers, base] else [mode, base];
    }

    /** The transfer count is first truncated to eight bits, then corrected. */
    method CountField(transfers: bv32, startingMode: bv32) returns (transferBits: bv8)
      ensures transferBits == TransferBits(startingMode, transfers)
    {
      var amod := startingMode & MODE_AM_MASK;
      var isMblt := amod == (A32_USER_BLOCK64 as bv32) || amod == (MBLT64 as bv32);
      transferBits := LowByte(transfers);
      if isMblt {
        if transfers == 256 {
          transferBits := 0;
        } else if transfers > 256 {
          transferBits := 0xff;
        }
      } else if transfers > 254 {
        transferBits := 0xff;
      }
    }

    method AddBlock(wide: bool, fifo: bool, address: bv32, addressMode: bv8, transfers: bv32)
      modifies this
      ensures list == old(list) + Words(BlockRead(wide, fifo, address, addressMode, transfers))
    {
      var amod := addressMode;
      if wide {
        if amod == A32 { amod := MBLT64; }
      } else {
        if amod == A32 { amod := BLT32; }
        if amod == A24 { amod := A24_PRIV_BLOCK; }
      }
      if fifo {
        AddFifoRead32(address, amod, transfers);
      } else {
        AddBlockRead32(address, amod, transfers);
      }
    }

    method AddRead(width: Width, address: bv32, amod: bv8)
      modifies this
      ensures list == old(list) + Words(Read(width, address, amod))
    {
      if width == D16 {
        AddRead16(address, amod);
        AddMarker(0);
      } else {
        AddRead32(address, amod);
      }
    }

    method AddWrite(width: Width, address: bv32, amod: bv8, value: bv32)
      modifies this
      ensures list == old(list) + Words(Write(width, address, amod, value))
    {
      if width == D16 {
        AddWrite16(address, amod, (value & 0xffff) as bv16);
      } else {
        AddWrite32(address, amod, value);
      }
    }

    method AddWait(milliseconds: Unsigned)
      modifies this
      ensures list == old(list) + Words(Wait(milliseconds))
    {
      var ns := milliseconds * 1000 % WRAP;
      var clocks := ns / 200;
      AddDelay((clocks % 0x100) as bv8);
    }

    method AddMarkerPair(value: bv32)
      modifies this
      ensures list == old(list) + Words(Marker(value))
    {
      AddMarker(value);
      AddMarker(value >> 16);
    }

    method AddScriptCommand(c: Command)
      modifies this
      ensures list == old(list) + Words(c)
    {
      match c
      case Silent =>
      case Read(width, address, amod) => AddRead(width, address, amod);
      case Write(width, address, amod, value) => AddWrite(width, address, amod, value);
      case Wait(milliseconds) => AddWait(milliseconds);
      case Marker(value) => AddMarkerPair(value);
      case BlockRead(wide, fifo, address, amod, transfers) => AddBlock(wide, fifo, address, amod, transfers);
      case WriteRegister(address, value) => AddRegisterWrite(address, value);
      case ReadRegister(address) => AddRegisterRead(address);
    }
  }
}

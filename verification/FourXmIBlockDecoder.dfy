/** decode_i_block with its two bit readers and the DC predictor updated in place. */
module FourXmIBlockDecoder {
  import opened PrefixCodes
  import opened FourXmIBlock

  /** A bit stream with a cursor; the reads are the library's. */
  class BitReader {
    const bits: Bits
    var pos: nat

    ghost predicate Valid()
      reads this
    {
      pos <= |bits|
    }

    ghost function Rest(): Bits
      requires Valid()
      reads this
    {
      bits[pos..]
    }

    constructor (bits: Bits)
      ensures Valid() && Rest() == bits
    {
      this.bits := bits;
      pos := 0;
    }

    method BitsLeft() returns (n: nat)
      requires Valid()
      ensures n == |Rest()|
    {
      n := |bits| - pos;
    }

    /** get_vlc2: the next symbol, or none if the stream ends inside it. */
    method GetVlc(words: seq<Bits>) returns (code: Option<nat>)
      requires Valid()
      modifies this
      ensures Valid() && code == ReadSymbol(words, old(Rest()))
      ensures Rest() == if code == None then old(Rest()) else old(Rest())[|words[code.value]|..]
    {
      code := ReadSymbol(words, bits[pos..]);
      if code.Some? {
        assert bits[pos..][|words[code.value]|..] == bits[pos + |words[code.value]|..];
        pos := pos + |words[code.value]|;
      }
    }

    /** get_xbits: `n` bits as a signed magnitude. */
    method GetXbits(n: nat) returns (v: int)
      requires Valid() && 0 < n <= |Rest()|
      modifies this
      ensures Valid() && v == SignedValue(old(Rest())[..n]) && Rest() == old(Rest())[n..]
    {
      assert bits[pos..][..n] == bits[pos..pos + n] && bits[pos..][n..] == bits[pos + n..];
      v := SignedValue(bits[pos..pos + n]);
      pos := pos + n;
    }
  }

  class BlockDecoder {
    const words: seq<Bits>
    const preGb: BitReader
    const gb: BitReader
    var lastDc: int

    ghost predicate Valid()
      reads this, preGb, gb
    {
      preGb != gb && preGb.Valid() && gb.Valid()
    }

    /** Both streams behind their cursors, a block and the predictor, as the specification sees them. */
    ghost function View(block: array<int>): State
      requires Valid()
      reads this, preGb, gb, block
    {
      State(preGb.Rest(), gb.Rest(), block[..], lastDc)
    }

    constructor (words: seq<Bits>, preGb: BitReader, gb: BitReader)
      requires preGb != gb && preGb.Valid() && gb.Valid()
      ensures Valid() && this.words == words && this.preGb == preGb && this.gb == gb && lastDc == 0
    {
      this.words, this.preGb, this.gb, lastDc := words, preGb, gb, 0;
    }

    /** The DC part. */
    method DecodeDc(block: array<int>) returns (status: Status)
      requires Valid() && block.Length == 64
      modifies this, preGb, gb, block
      ensures Valid() && Outcome(status, View(block)) == ReadDc(words, old(View(block)))
    {
      var left := gb.BitsLeft();
      if left < 2 {
        return Invalid;
      }
      var code := preGb.GetVlc(words);
      if code == None {
        return Overread;
      }
      var val: int := code.value;
      if val / 16 != 0 {
        return Invalid;
      }
      left := gb.BitsLeft();
      if left < val {
        return Overread;
      }
      if val != 0 {
        val := gb.GetXbits(val);
      } else {
        assert gb.Rest()[0..] == gb.Rest();
      }
      val := val * Factor(0) + lastDc;
      ghost var before := block[..];
      block[0] := Wrap16(val);
      lastDc := block[0];
      assert block[..] == before[0 := lastDc];
      return Ok;
    }

    /** One AC symbol that is neither the end mark nor a long zero run. */
    method DecodeLevel(block: array<int>, first: nat, n: nat) returns (i: nat, done: bool, status: Status)
      requires Valid() && block.Length == 64
      modifies gb, block
      ensures Valid()
      ensures (if done then Stop(Outcome(status, View(block))) else More(View(block), i)) == AcLevel(old(View(block)), first, n)
    {
      i := first;
      if n == 0 {
        return i, true, Invalid;
      }
      var left := gb.BitsLeft();
      if left < n {
        return i, true, Overread;
      }
      var level := gb.GetXbits(n);
      if i >= 64 {
        return i, true, Ok;
      }
      var j := ZigzagCell(i);
      ghost var before := block[..];
      block[j] := Wrap16(level * Factor(j));
      assert block[..] == before[j := block[j]];
      i := i + 1;
      return i, i >= 64, Ok;
    }

    /** One round of the AC loop. */
    method DecodeAc(block: array<int>, first: nat) returns (i: nat, done: bool, status: Status)
      requires Valid() && block.Length == 64
      modifies preGb, gb, block
      ensures Valid()
      ensures (if done then Stop(Outcome(status, View(block))) else More(View(block), i)) == AcStep(words, old(View(block)), first)
    {
      i := first;
      var code := preGb.GetVlc(words);
      if code == None {
        return i, true, Overread;
      }
      if code.value == EOB {
        return i, true, Ok;
      }
      if code.value == ZRL {
        return i + 16, false, Ok;
      }
      i, done, status := DecodeLevel(block, i + code.value / 16, code.value % 16);
    }

    /** decode_i_block: DC, then AC symbols until the end mark, coefficient 63, or an error. */
    method DecodeIBlock(block: array<int>) returns (status: Status)
      requires Valid() && block.Length == 64
      modifies this, preGb, gb, block
      ensures Valid() && Outcome(status, View(block)) == DecodeBlock(words, old(View(block)))
    {
      status := DecodeDc(block);
      if status != Ok {
        return;
      }
      var i, done := 1, false;
      ghost var goal := AcLoop(words, View(block), 1);
      while !done
        invariant Valid()
        invariant if done then Outcome(status, View(block)) == goal else AcLoop(words, View(block), i) == goal
        decreases !done, |preGb.Rest()|
      {
        i, done, status := DecodeAc(block, i);
      }
    }
  }
}

/** The target's memory, and the words ptrace reads and writes it by. */
module Words {
  import opened Common

  type Memory = map<nat, byte>

  const INT3: byte := 0xCC
  const WORD_BYTES := 8

  /** Memory with an INT3 at each of these addresses. */
  function Overlay(orig: Memory, at: set<nat>): Memory {
    map a | a in orig :: if a in at then INT3 else orig[a]
  }

  /** A little-endian word from its bytes. */
  function Pack(bs: seq<byte>): nat {
    if bs == [] then 0 else bs[0] + 256 * Pack(bs[1..])
  }

  /** The low `n` bytes of a word. */
  function Unpack(w: nat, n: nat): seq<byte> {
    if n == 0 then [] else [w % 256] + Unpack(w / 256, n - 1)
  }

  /** The word with its low byte replaced. */
  function WithLowByte(w: nat, b: byte): nat {
    w - w % 256 + b
  }

  lemma LowByte(low: byte, high: nat)
    ensures (low + 256 * high) % 256 == low && (low + 256 * high) / 256 == high
  {
  }

  lemma {:induction false} UnpackPack(bs: seq<byte>)
    ensures Unpack(Pack(bs), |bs|) == bs
  {
    if bs != [] {
      UnpackPack(bs[1..]);
      LowByte(bs[0], Pack(bs[1..]));
    }
  }

  /** Replacing the low byte of a word and storing the word changes that byte only. */
  lemma {:induction false} LowByteReplaced(bs: seq<byte>, b: byte)
    requires bs != []
    ensures Unpack(WithLowByte(Pack(bs), b), |bs|) == [b] + bs[1..]
  {
    var high := Pack(bs[1..]);
    LowByte(bs[0], high);
    LowByte(b, high);
    UnpackPack(bs[1..]);
    assert WithLowByte(Pack(bs), b) == b + 256 * high;
  }

  predicate Mapped(mem: Memory, addr: nat) {
    forall a | addr <= a < addr + WORD_BYTES :: a in mem
  }

  function WordAt(mem: Memory, addr: nat): seq<byte>
    requires Mapped(mem, addr)
  {
    seq(WORD_BYTES, i requires 0 <= i < WORD_BYTES => mem[addr + i])
  }

  function Stored(mem: Memory, addr: nat, bs: seq<byte>): Memory {
    map a | a in mem :: if addr <= a < addr + |bs| then bs[a - addr] else mem[a]
  }

  lemma PackedWordIsMemory(mem: Memory, addr: nat, b: byte)
    requires Mapped(mem, addr)
    ensures var w := Pack(WordAt(mem, addr));
      Stored(mem, addr, Unpack(WithLowByte(w, b), |WordAt(mem, addr)|)) == mem[addr := b]
  {
    var bs := WordAt(mem, addr);
    LowByteReplaced(bs, b);
    forall a | a in mem
      ensures (if addr <= a < addr + WORD_BYTES then ([b] + bs[1..])[a - addr] else mem[a]) == mem[addr := b][a]
    {
      if addr < a < addr + WORD_BYTES {
        assert bs[1..][a - addr - 1] == bs[a - addr];
      }
    }
  }

  lemma PackedWordLowByte(mem: Memory, addr: nat)
    requires Mapped(mem, addr)
    ensures addr in mem && Pack(WordAt(mem, addr)) % 256 == mem[addr]
  {
    var bs := WordAt(mem, addr);
    LowByte(bs[0], Pack(bs[1..]));
  }
}

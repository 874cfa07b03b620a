/** Target memory as the two scanners see it, and little-endian integers in it. */
module Memory {
  type byte = x: int | 0 <= x < 256

  /** What reads of the target find while one command runs: which ranges can be read, and the octet
      at every address. Commands run against memories that may all differ. */
  datatype Memory = Memory(readable: (nat, nat) -> bool, at: nat -> byte)

  predicate CanRead(mem: Memory, addr: nat, n: nat) {
    mem.readable(addr, n)
  }

  function Read(mem: Memory, addr: nat, n: nat): (s: seq<byte>)
    ensures |s| == n
  {
    seq<byte>(n, i requires 0 <= i < n => mem.at(addr + i))
  }

  lemma ReadPart(mem: Memory, addr: nat, n: nat, i: nat, k: nat)
    requires i + k <= n
    ensures Read(mem, addr, n)[i..i + k] == Read(mem, addr + i, k)
  {
  }

  /** `LoadValue`: `memcpy` of some octets into a zeroed u64. */
  function Load(s: seq<byte>): nat {
    if s == [] then 0 else s[0] + 256 * Load(s[1..])
  }

  /** The low `width` octets of a u64, as `memcpy` takes them from it. */
  function Store(v: nat, width: nat): (s: seq<byte>)
    ensures |s| == width
  {
    if width == 0 then [] else [v % 256] + Store(v / 256, width - 1)
  }

  function Pow256(k: nat): (r: nat)
    ensures r > 0
  {
    if k == 0 then 1 else 256 * Pow256(k - 1)
  }

  lemma {:induction false} LoadBound(s: seq<byte>)
    ensures Load(s) < Pow256(|s|)
  {
    if s != [] { LoadBound(s[1..]); }
  }

  /** Comparing loaded values is comparing octets, for a value that fits the width. */
  lemma {:induction false} LoadIsStore(s: seq<byte>, v: nat)
    ensures Load(s) == v <==> s == Store(v, |s|) && v < Pow256(|s|)
  {
    if s != [] {
      LoadIsStore(s[1..], v / 256);
      assert Store(v, |s|)[1..] == Store(v / 256, |s| - 1);
      assert s == [s[0]] + s[1..];
    }
  }

  predicate ValidWidth(width: int) {
    width == 1 || width == 2 || width == 4 || width == 8
  }

  /** `(int)` of an int64. */
  function ToInt32(x: int): int {
    (x + 0x8000_0000) % 0x1_0000_0000 - 0x8000_0000
  }

  /** `(u64)` of an int64. */
  function ToU64(x: int): nat {
    x % 0x1_0000_0000_0000_0000
  }

  /** Both casts keep the number modulo the size of the type, in its range. */
  lemma CastsAre(x: int)
    ensures -0x8000_0000 <= ToInt32(x) < 0x8000_0000 && (x - ToInt32(x)) % 0x1_0000_0000 == 0
    ensures ToU64(x) < 0x1_0000_0000_0000_0000 && (x - ToU64(x)) % 0x1_0000_0000_0000_0000 == 0
  {
  }

  /** Integers lie in memory with the least significant octet first. */
  lemma LittleEndian(mem: Memory, a: nat)
    ensures Load(Read(mem, a, 1)) == mem.at(a)
    ensures Load(Read(mem, a, 2)) == mem.at(a) + 0x100 * mem.at(a + 1)
    ensures Load(Read(mem, a, 4))
            == mem.at(a) + 0x100 * mem.at(a + 1) + 0x1_0000 * mem.at(a + 2) + 0x100_0000 * mem.at(a + 3)
    ensures Load(Read(mem, a, 8)) == Load(Read(mem, a, 4)) + 0x1_0000_0000 * Load(Read(mem, a + 4, 4))
  {
    hide Load, Read;
    LoadFirst(mem, a, 1);
    LoadFirst(mem, a, 2);
    LoadFirst(mem, a + 1, 1);
    LoadFour(mem, a);
    LoadFour(mem, a + 4);
    LoadFirst(mem, a, 8);
    LoadFirst(mem, a + 1, 7);
    LoadFirst(mem, a + 2, 6);
    LoadFirst(mem, a + 3, 5);
  }

  lemma LoadFour(mem: Memory, a: nat)
    ensures Load(Read(mem, a, 4))
            == mem.at(a) + 0x100 * mem.at(a + 1) + 0x1_0000 * mem.at(a + 2) + 0x100_0000 * mem.at(a + 3)
  {
    hide Load, Read;
    LoadFirst(mem, a, 4);
    LoadFirst(mem, a + 1, 3);
    LoadFirst(mem, a + 2, 2);
    LoadFirst(mem, a + 3, 1);
  }

  lemma LoadFirst(mem: Memory, a: nat, n: nat)
    requires n > 0
    ensures Load(Read(mem, a, n)) == mem.at(a) + 256 * Load(Read(mem, a + 1, n - 1))
    ensures Load(Read(mem, a, 0)) == 0
  {
    assert Read(mem, a, n)[1..] == Read(mem, a + 1, n - 1);
  }
}

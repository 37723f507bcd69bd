/**
  The 64-bit words that carry an identity through the kernel: the completion key of the IOCP server and
  the user data of the io_uring servers. Fields that do not overlap are added instead of or-ed.
*/
module Tags {

  const TWO3: nat := 8
  const TWO29: nat := 0x2000_0000
  const TWO32: nat := 0x1_0000_0000
  const TWO35: nat := 0x8_0000_0000
  const TWO64: nat := 0x1_0000_0000_0000_0000

  type u32 = x: int | 0 <= x < 0x1_0000_0000
  type u64 = x: int | 0 <= x < 0x1_0000_0000_0000_0000

  datatype ConnHandle = ConnHandle(index: u32, generation: u32)

  // ------------------------------------------------------------ completion keys

  function PackKey(h: ConnHandle): u64 { h.generation * TWO32 + h.index }

  function UnpackKey(k: u64): ConnHandle { ConnHandle(k % TWO32, k / TWO32) }

  /**
    A handle survives the trip through a completion key, with the index in the low word of the key, and
    every key is the key of one handle.
  */
  lemma {:induction false} KeyRoundTrip(h: ConnHandle, k: u64)
    ensures UnpackKey(PackKey(h)) == h && PackKey(UnpackKey(k)) == k
    ensures PackKey(h) % 0x1_0000_0000 == h.index && PackKey(h) / 0x1_0000_0000 == h.generation
  {
    DivMod(h.generation, h.index, TWO32);
    assert k == (k / TWO32) * TWO32 + k % TWO32;
  }

  lemma DivMod(q: int, r: int, d: int)
    requires 0 <= r < d
    ensures (q * d + r) / d == q && (q * d + r) % d == r
  {
    var x := q * d + r;
    assert x == (x / d) * d + x % d;
    MultiplesApart(q, x / d, d);
    MultiplesApart(x / d, q, d);
  }

  lemma MultiplesApart(a: int, b: int, d: int)
    requires d > 0
    ensures a < b ==> a * d + d <= b * d
  {
    if a < b {
      assert b * d == a * d + (b - a) * d;
      assert (b - a - 1) * d >= 0;
    }
  }

  // ------------------------------------------------------------ user data of the ring

  datatype UserData = UserData(fd: int, op: nat, aux: nat)

  /** A C++ `int` seen as `uint32_t`. */
  function Unsigned(fd: int): nat { fd % TWO32 }

  /** The or of the extra word with a bit of the operation that runs into its lowest place. */
  function OrBit(aux: nat, bit: nat): nat { if bit == 1 && aux % 2 == 0 then aux + 1 else aux }

  /** `(aux << 3) | op` for four-bit operations, in the bits of the machine. */
  lemma {:induction false} OrOfFields(aux: bv32, op: bv32)
    requires aux <= 0x1FFF_FFFF && op <= 15
    ensures (aux << 3) | op == ((aux | (op >> 3)) << 3) | (op & 7)
    ensures aux | 1 == if aux & 1 == 0 then aux + 1 else aux
  {
  }

  /** `pack_ud_aux`: the descriptor is shifted by 35 bits in a 64-bit word, and its top three bits are lost. */
  function PackUd(fd: int, op: nat, aux: nat): nat
    requires op < 16
  {
    (Unsigned(fd) * TWO35) % TWO64 + OrBit(aux % TWO29, op / TWO3) * TWO3 + op % TWO3
  }

  function UnpackUd(u: nat): UserData {
    UserData((u / TWO35) % TWO32, u % TWO3, (u / TWO3) % TWO29)
  }

  lemma ShiftedFd(fd: int)
    ensures (Unsigned(fd) * TWO35) % TWO64 == (Unsigned(fd) % TWO29) * TWO35
  {
    var f := Unsigned(fd);
    var q, r := f / TWO29, f % TWO29;
    assert f == q * TWO29 + r;
    assert f * TWO35 == q * TWO64 + r * TWO35;
    DivMod(q, r * TWO35, TWO64);
  }

  /** What comes back, for the operations that fit into three bits. */
  lemma UserDataComesBack(fd: int, op: nat, aux: nat)
    requires op < TWO3
    ensures UnpackUd(PackUd(fd, op, aux)) == UserData(Unsigned(fd) % TWO29, op, aux % TWO29)
  {
    ShiftedFd(fd);
    var f, a := Unsigned(fd) % TWO29, aux % TWO29;
    var u := f * TWO35 + a * TWO3 + op;
    DivMod(f, a * TWO3 + op, TWO35);
    DivMod(f * TWO32 + a, op, TWO3);
    assert u / TWO3 == f * TWO32 + a;
    DivMod(f * 8, a, TWO29);
  }

  /** The trip is exact if and only if the descriptor fits into 29 bits and so does the extra word. */
  lemma {:induction false} UserDataRoundTrip(fd: int, op: nat, aux: nat)
    requires op < TWO3
    ensures UnpackUd(PackUd(fd, op, aux)) == UserData(fd, op, aux)
       <==> 0 <= fd < TWO29 && aux < TWO29
  {
    UserDataComesBack(fd, op, aux);
  }

  /** The library's operations from 8 on come back as another operation, with the lowest bit of the extra word set. */
  lemma {:induction false} WideOperationsAlias(fd: int, op: nat, aux: nat)
    requires TWO3 <= op < 16
    ensures UnpackUd(PackUd(fd, op, aux)) == UserData(Unsigned(fd) % TWO29, op - TWO3, OrBit(aux % TWO29, 1))
  {
    var a := OrBit(aux % TWO29, 1);
    assert op / TWO3 == 1 && op % TWO3 == op - TWO3;
    assert a < TWO29;
    assert PackUd(fd, op, aux) == PackUd(fd, op - TWO3, a);
    UserDataComesBack(fd, op - TWO3, a);
  }
}

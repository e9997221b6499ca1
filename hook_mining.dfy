/**
 * Hook-address mining in simulation/orchestrator.py (a port of Uniswap's
 * HookMiner): search the CREATE2 salts 0, 1, 2, ... for the first one whose
 * deployment address carries the required hook permission flags in its low
 * 14 bits.
 *
 * keccak-256 is a parameter of type `seq<Byte> -> Digest`: nothing here
 * depends on how it computes its digest, only on it being a function.
 */
module HookMining {
  import opened Results

  type Byte = b: int | 0 <= b < 256

  /** A keccak-256 digest: 32 bytes. */
  type Digest = s: seq<Byte> | |s| == 32 witness seq(32, _ => 0)

  function Pow2(k: nat): (r: nat)
    ensures r >= 1
  {
    if k == 0 then 1 else 2 * Pow2(k - 1)
  }

  function Pow256(k: nat): (r: nat)
    ensures r >= 1
  {
    if k == 0 then 1 else 256 * Pow256(k - 1)
  }

  /** The low 14 bits of an address hold the hook permission flags: `(1 << 14) - 1`. */
  const HOOK_MASK: nat := Pow2(14) - 1

  /** AFTER_INITIALIZE | BEFORE_SWAP | AFTER_SWAP | AFTER_SWAP_RETURNS_DELTA, the flags the Spot hook needs. */
  const REQUIRED_HOOK_FLAGS: nat := 0x10C4

  /** The default search bound of `find_salt_for_flags`. */
  const DEFAULT_MAX_LOOP: nat := 200_000

  /** Salts are encoded on 32 bytes; `to_bytes(32, "big")` refuses anything from 2^256 = 256^32 on. */
  const SALT_LIMIT: nat := 0x1_0000_0000_0000_0000_0000_0000_0000_0000_0000_0000_0000_0000_0000_0000_0000_0000

  // ---------------------------------------------------------------------
  // Bitwise and on non-negative integers
  // ---------------------------------------------------------------------

  /** Python's `x & y` on non-negative integers, bit by bit from the least significant one. */
  function BitAnd(x: nat, y: nat): (r: nat)
    ensures r <= x && r <= y
    decreases x
  {
    if x == 0 || y == 0 then 0
    else 2 * BitAnd(x / 2, y / 2) + (if x % 2 == 1 && y % 2 == 1 then 1 else 0)
  }

  lemma MulAtLeast(d: nat, k: nat)
    requires k >= 1
    ensures d * k >= d
  {
    assert d * k == d * (k - 1) + d;
  }

  lemma ModUnique(x: nat, d: nat, q: nat, c: nat)
    requires d > 0 && x == d * q + c && c < d
    ensures x % d == c
  {
    var q', c' := x / d, x % d;
    assert d * q' + c' == d * q + c;
    if q' > q {
      assert d * q' == d * q + d * (q' - q);
      MulAtLeast(d, q' - q);
      assert false;
    } else if q' < q {
      assert d * q == d * q' + d * (q - q');
      MulAtLeast(d, q - q');
      assert false;
    }
  }

  lemma ModDouble(x: nat, m: nat)
    requires m >= 1
    ensures x % (2 * m) == 2 * ((x / 2) % m) + x % 2
  {
    var h := x / 2;
    assert x == 2 * h + x % 2;
    assert h == m * (h / m) + h % m;
    assert x == (2 * m) * (h / m) + (2 * (h % m) + x % 2);
    ModUnique(x, 2 * m, h / m, 2 * (h % m) + x % 2);
  }

  /** Masking with 2^k - 1 keeps exactly the low k bits: `x & (2^k - 1) == x mod 2^k`. */
  lemma {:induction false} MaskIsLowBits(x: nat, k: nat)
    ensures BitAnd(x, Pow2(k) - 1) == x % Pow2(k)
    decreases k
  {
    if k == 0 {
      assert Pow2(k) - 1 == 0 && x % 1 == 0;
    } else if x == 0 {
      ModUnique(0, Pow2(k), 0, 0);
    } else {
      var m := Pow2(k - 1);
      var y := Pow2(k) - 1;
      assert y == 2 * (m - 1) + 1;
      assert y / 2 == m - 1 && y % 2 == 1;
      MaskIsLowBits(x / 2, k - 1);
      assert BitAnd(x, y) == 2 * BitAnd(x / 2, m - 1) + x % 2;
      ModDouble(x, m);
      assert Pow2(k) == 2 * m;
    }
  }

  // ---------------------------------------------------------------------
  // Big-endian encoding
  // ---------------------------------------------------------------------

  /** The quotient by 256 of a number below 256 * m is below m. */
  lemma DivBelow(n: nat, m: nat)
    requires n < 256 * m
    ensures n / 256 < m
  {
  }

  /** `n.to_bytes(k, "big")`: k bytes, most significant first; Python raises for n >= 256^k, so that is excluded. */
  function ToBytesBE(n: nat, k: nat): (b: seq<Byte>)
    requires n < Pow256(k)
    ensures |b| == k
  {
    if k == 0 then []
    else
      DivBelow(n, Pow256(k - 1));
      ToBytesBE(n / 256, k - 1) + [n % 256]
  }

  /** `int.from_bytes(b, "big")`; a k-byte string decodes below 256^k. */
  function FromBytesBE(b: seq<Byte>): (n: nat)
    ensures n < Pow256(|b|)
    decreases |b|
  {
    if b == [] then 0 else FromBytesBE(b[..|b| - 1]) * 256 + b[|b| - 1]
  }

  /** Every salt below 256^k is encoded on k bytes and decodes back to itself. */
  lemma {:induction false} SaltEncodingRoundTrip(n: nat, k: nat)
    requires n < Pow256(k)
    ensures FromBytesBE(ToBytesBE(n, k)) == n
    decreases k
  {
    if k > 0 {
      var b := ToBytesBE(n, k);
      DivBelow(n, Pow256(k - 1));
      assert b[..k - 1] == ToBytesBE(n / 256, k - 1);
      SaltEncodingRoundTrip(n / 256, k - 1);
    }
  }

  /** Decoding and re-encoding a byte string on its own length gives it back. */
  lemma {:induction false} BytesRoundTrip(b: seq<Byte>)
    ensures ToBytesBE(FromBytesBE(b), |b|) == b
    decreases |b|
  {
    if b != [] {
      var k := |b| - 1;
      var n := FromBytesBE(b);
      assert n / 256 == FromBytesBE(b[..k]) && n % 256 == b[k];
      BytesRoundTrip(b[..k]);
      assert b == b[..k] + [b[k]];
    }
  }

  lemma {:induction false} Pow2Add(a: nat, c: nat)
    ensures Pow2(a + c) == Pow2(a) * Pow2(c)
    decreases c
  {
    if c > 0 {
      Pow2Add(a, c - 1);
      assert Pow2(a + c) == 2 * Pow2(a + c - 1);
    }
  }

  lemma {:induction false} Pow256Add(a: nat, c: nat)
    ensures Pow256(a + c) == Pow256(a) * Pow256(c)
    decreases c
  {
    if c > 0 {
      Pow256Add(a, c - 1);
      assert Pow256(a + c) == 256 * Pow256(a + c - 1);
    }
  }

  /** 256^k == 2^(8k). */
  lemma {:induction false} Pow256IsPow2(k: nat)
    ensures Pow256(k) == Pow2(8 * k)
    decreases k
  {
    if k > 0 {
      Pow256IsPow2(k - 1);
      Pow2Add(8 * (k - 1), 8);
      assert Pow2(8) == 256;
    }
  }

  /** The salt bound is 256^32: exactly the salts below it fit in 32 bytes. */
  lemma SaltLimitIs256To32()
    ensures SALT_LIMIT == Pow256(32)
  {
    assert Pow256(2) == 0x1_0000;
    Pow256Add(2, 2);
    Pow256Add(4, 4);
    Pow256Add(8, 8);
    Pow256Add(16, 16);
  }

  // ---------------------------------------------------------------------
  // The salt search
  // ---------------------------------------------------------------------

  /**
   * The CREATE2 address of `creationCode` deployed by `deployer` with `salt`:
   * the last 20 bytes of keccak(0xff ++ deployer ++ salt as 32 big-endian bytes ++ keccak(creationCode)).
   */
  function Create2Address(keccak: seq<Byte> -> Digest, deployer: seq<Byte>, salt: nat, creationCode: seq<Byte>): (addr: seq<Byte>)
    requires salt < SALT_LIMIT
    ensures |addr| == 20
  {
    SaltLimitIs256To32();
    keccak([0xff] + deployer + ToBytesBE(salt, 32) + keccak(creationCode))[12..]
  }

  /** The 20-byte address read as an integer is below 2^160. */
  lemma AddressBelow2To160(addr: seq<Byte>)
    requires |addr| == 20
    ensures FromBytesBE(addr) < Pow2(160)
  {
    Pow256IsPow2(20);
  }

  /** Whether the address a salt yields carries exactly `flags` in its masked bits. */
  predicate Qualifies(keccak: seq<Byte> -> Digest, deployer: seq<Byte>, creationCode: seq<Byte>, flags: int, salt: nat)
    requires salt < SALT_LIMIT
  {
    BitAnd(FromBytesBE(Create2Address(keccak, deployer, salt, creationCode)), HOOK_MASK) == flags
  }

  /** The two ways the search raises: no salt found in range, or a salt too large for 32 bytes. */
  datatype MiningError = NoSaltFound | SaltTooLarge

  /**
   * `find_salt_for_flags`: the least salt below `maxLoop` whose address, masked
   * with HOOK_MASK, equals `flags`, with that address; an error exactly when no
   * salt in range qualifies. The error is SaltTooLarge when the range reaches
   * 256^32, where the 32-byte encoding of the salt overflows.
   */
  method FindSaltForFlags(keccak: seq<Byte> -> Digest, deployer: seq<Byte>, creationCode: seq<Byte>, flags: int, maxLoop: int)
    returns (r: Result<(nat, seq<Byte>), MiningError>)
    ensures r.Ok? ==>
      var (salt, addr) := r.value;
      salt < maxLoop && salt < SALT_LIMIT
      && addr == Create2Address(keccak, deployer, salt, creationCode)
      && BitAnd(FromBytesBE(addr), HOOK_MASK) == flags
      && forall s: nat :: s < salt ==> !Qualifies(keccak, deployer, creationCode, flags, s)
    ensures r.Err? <==> forall s: nat :: s < maxLoop && s < SALT_LIMIT ==> !Qualifies(keccak, deployer, creationCode, flags, s)
    ensures r == Err(SaltTooLarge) <==> r.Err? && maxLoop > SALT_LIMIT
  {
    var salt: nat := 0;
    while salt < maxLoop
      invariant salt <= SALT_LIMIT
      invariant salt <= maxLoop || salt == 0
      invariant forall s: nat :: s < salt ==> !Qualifies(keccak, deployer, creationCode, flags, s)
      decreases maxLoop - salt
    {
      SaltLimitIs256To32();
      if salt == SALT_LIMIT {
        return Err(SaltTooLarge);
      }
      var saltBytes := ToBytesBE(salt, 32);
      var addrBytes := keccak([0xff] + deployer + saltBytes + keccak(creationCode))[12..];
      assert addrBytes == Create2Address(keccak, deployer, salt, creationCode);
      var addrInt := FromBytesBE(addrBytes);
      if BitAnd(addrInt, HOOK_MASK) == flags {
        assert Qualifies(keccak, deployer, creationCode, flags, salt);
        return Ok((salt, addrBytes));
      }
      salt := salt + 1;
    }
    return Err(NoSaltFound);
  }

  /**
   * Flags with a bit outside HOOK_MASK (or negative flags) are never matched,
   * so the search raises for them whatever the range; the masked value is the
   * address modulo 2^14.
   */
  lemma {:induction false} FlagsOutsideMaskNeverQualify(keccak: seq<Byte> -> Digest, deployer: seq<Byte>, creationCode: seq<Byte>, flags: int, salt: nat)
    requires salt < SALT_LIMIT
    requires flags < 0 || flags > HOOK_MASK
    ensures !Qualifies(keccak, deployer, creationCode, flags, salt)
    ensures BitAnd(FromBytesBE(Create2Address(keccak, deployer, salt, creationCode)), HOOK_MASK)
         == FromBytesBE(Create2Address(keccak, deployer, salt, creationCode)) % 0x4000
  {
    MaskIsLowBits(FromBytesBE(Create2Address(keccak, deployer, salt, creationCode)), 14);
    assert Pow2(14) == 0x4000;
  }

  /** The required flags fit in the mask, so the deployment search can succeed for them. */
  lemma RequiredFlagsFitMask()
    ensures HOOK_MASK == 0x3FFF
    ensures BitAnd(REQUIRED_HOOK_FLAGS, HOOK_MASK) == REQUIRED_HOOK_FLAGS
  {
    assert Pow2(14) == 0x4000;
    MaskIsLowBits(REQUIRED_HOOK_FLAGS, 14);
    ModUnique(REQUIRED_HOOK_FLAGS, 0x4000, 0, REQUIRED_HOOK_FLAGS);
  }

  /**
   * The deployment's call `find_salt_for_flags(factory.address, creation_code,
   * REQUIRED_HOOK_FLAGS)` with the default bound: it never overflows the salt
   * encoding, a found salt is below 200 000 and gives an address carrying
   * exactly the required flags, and the salt's 32-byte form that is then sent
   * to the factory decodes back to the salt.
   */
  method FindHookSalt(keccak: seq<Byte> -> Digest, factory: seq<Byte>, creationCode: seq<Byte>)
    returns (r: Result<(nat, seq<Byte>), MiningError>)
    ensures r != Err(SaltTooLarge)
    ensures r.Ok? ==>
      var (salt, addr) := r.value;
      salt < DEFAULT_MAX_LOOP && salt < SALT_LIMIT
      && BitAnd(FromBytesBE(addr), HOOK_MASK) == REQUIRED_HOOK_FLAGS
      && addr == Create2Address(keccak, factory, salt, creationCode)
      && SaltBytesDecode(salt)
    ensures r.Err? <==> forall s: nat :: s < DEFAULT_MAX_LOOP ==> !Qualifies(keccak, factory, creationCode, REQUIRED_HOOK_FLAGS, s)
  {
    r := FindSaltForFlags(keccak, factory, creationCode, REQUIRED_HOOK_FLAGS, DEFAULT_MAX_LOOP);
    if r.Ok? {
      SaltLimitIs256To32();
      SaltEncodingRoundTrip(r.value.0, 32);
    }
  }

  /** Whether the 32-byte big-endian form of a salt decodes back to it. */
  predicate SaltBytesDecode(salt: nat)
    requires salt < SALT_LIMIT
  {
    SaltLimitIs256To32();
    FromBytesBE(ToBytesBE(salt, 32)) == salt
  }
}

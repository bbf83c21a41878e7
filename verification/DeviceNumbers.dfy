/** pkg/device/resolver.go: the device numbers that join kernel histograms with mounted volumes. The kernel's
    own encoding puts the major number above 20 minor bits; stat reports the encoding user space sees; and
    mountinfo prints "major:minor". A histogram finds its volume only where the three agree. */
module DeviceNumbers {
  import opened Bits
  import opened GoText

  const MINORS: nat := 0x10_0000
  const MAJORS: nat := 0x1000

  function MkDev(major: u32, minor: u32): nat { BitOr(Shl(major, 20) % TWO_32, minor) }
  function Major(dev: u32): nat { Shr(dev, 20) }
  function Minor(dev: u32): nat { BitAnd(dev, MINORS - 1) }
  function DevToString(dev: u32): string { Decimal(Major(dev)) + [':'] + Decimal(Minor(dev)) }

  /** The major:minor field of a mountinfo line. */
  function ParseDevice(s: string): Option<(u32, u32)> {
    match Cut(s, ':')
    case None => None
    case Some(parts) =>
      match ParseUint(parts.0, TWO_32)
      case None => None
      case Some(major) =>
        match ParseUint(parts.1, TWO_32)
        case None => None
        case Some(minor) => Some((major, minor))
  }

  function StatMajor(rdev: u64): nat { BitAnd(Shr(rdev, 8), 0xfff) }
  function StatMinor(rdev: u64): nat { BitOr(BitAnd(rdev, 0xff), BitAnd(Shr(rdev, 12), 0xfff00)) }

  /** Linux's user-space encoding: eight minor bits, twelve major bits, then the other minor bits. */
  function UserDev(major: nat, minor: nat): nat {
    BitOr(BitOr(BitAnd(minor, 0xff), Shl(major, 8)), Shl(Shr(minor, 8), 20))
  }

  // ---- The bit operations as arithmetic ----

  lemma {:induction false} ShlIsMul(a: nat, k: nat)
    ensures Shl(a, k) == a * Pow2(k)
  {
    if k > 0 {
      ShlIsMul(a, k - 1);
      assert 2 * (a * Pow2(k - 1)) == a * Pow2(k);
    }
  }

  lemma {:induction false} OrCommutes(a: nat, b: nat)
    ensures BitOr(a, b) == BitOr(b, a)
    decreases a + b
  {
    if a + b > 0 { OrCommutes(a / 2, b / 2); }
  }

  /** A mask with k clear low bits selects bits of a shifted right by k. */
  lemma {:induction false} AndShifted(a: nat, k: nat, m: nat)
    ensures BitAnd(a, Shl(m, k)) == Shl(BitAnd(Shr(a, k), m), k)
    decreases k
  {
    if k > 0 {
      AndDouble(a, Shl(m, k - 1));
      AndShifted(a / 2, k - 1, m);
    }
  }

  lemma ModOfMultiple(a: nat, p: nat, q: nat)
    requires p > 0 && q > 0
    ensures (a * p) % (q * p) == (a % q) * p
  {
    var d, r := a / q, a % q;
    assert a * p == d * (q * p) + r * p by {
      assert a == d * q + r;
      assert (d * q + r) * p == (d * q) * p + r * p;
      MulAssoc(d, q, p);
    }
    assert r * p < q * p by { MulLe(r + 1, q, p); assert (r + 1) * p == r * p + p; }
    DivModUnique(a * p, q * p, d, r * p);
  }

  lemma OrHigh(high: nat, k: nat, low: nat)
    requires low < Pow2(k)
    ensures BitOr(high * Pow2(k), low) == high * Pow2(k) + low
  {
    ModMultiple(high, Pow2(k));
    OrDisjoint(high * Pow2(k), low, k);
  }

  /** In range of its field the minor number is added below the major number, which wraps at 12 bits. */
  lemma MkDevArithmetic(major: u32, minor: u32)
    requires minor < MINORS
    ensures MkDev(major, minor) == (major % MAJORS) * MINORS + minor < TWO_32
  {
    Powers();
    var k: nat := 20;
    ShlIsMul(major, k);
    ModOfMultiple(major, MINORS, MAJORS);
    OrHigh(major % MAJORS, k, minor);
  }

  lemma PartsArithmetic(dev: u32)
    ensures Major(dev) == dev / MINORS < MAJORS && Minor(dev) == dev % MINORS
  {
    Powers();
    var k: nat := 20;
    ShrIsDiv(dev, k);
    AndLowMask(dev, k);
  }

  lemma StatArithmetic(rdev: u64)
    ensures StatMajor(rdev) == (rdev / 0x100) % MAJORS
    ensures StatMinor(rdev) == ((rdev / MINORS) % MAJORS) * 0x100 + rdev % 0x100 < MINORS
  {
    Powers();
    var k8: nat, k12: nat := 8, 12;
    ShrIsDiv(rdev, k8);
    AndLowMask(Shr(rdev, k8), k12);
    AndLowMask(rdev, k8);
    UpperMinor(rdev);
    var high := (rdev / MINORS) % MAJORS;
    OrCommutes(rdev % 0x100, high * 0x100);
    OrHigh(high, k8, rdev % 0x100);
  }

  lemma UpperMinor(rdev: u64)
    ensures BitAnd(Shr(rdev, 12), 0xfff00) == ((rdev / MINORS) % MAJORS) * 0x100
  {
    Powers();
    var k8: nat, k12: nat, m: nat := 8, 12, 0xfff;
    ShrIsDiv(rdev, k12);
    var x := rdev / 0x1000;
    ShlIsMul(m, k8);
    AndShifted(x, k8, m);
    ShrIsDiv(x, k8);
    AndLowMask(x / 0x100, k12);
    ShlIsMul((x / 0x100) % 0x1000, k8);
  }

  lemma UserDevArithmetic(major: nat, minor: nat)
    requires major < MAJORS && minor < MINORS
    ensures UserDev(major, minor) == (minor / 0x100) * MINORS + major * 0x100 + minor % 0x100 < TWO_32
  {
    LowerUserDev(major, minor);
    UpperUserDev(minor);
    OrAtMinors(minor / 0x100, major * 0x100 + minor % 0x100);
  }

  lemma UpperUserDev(minor: nat)
    ensures Shl(Shr(minor, 8), 20) == (minor / 0x100) * MINORS
  {
    Powers();
    var k8: nat, k20: nat := 8, 20;
    ShrIsDiv(minor, k8);
    ShlIsMul(minor / 0x100, k20);
  }

  lemma OrAtMinors(high: nat, low: nat)
    requires low < MINORS
    ensures BitOr(low, high * MINORS) == high * MINORS + low
  {
    Powers();
    var k20: nat := 20;
    OrCommutes(low, high * MINORS);
    OrHigh(high, k20, low);
  }

  lemma LowerUserDev(major: nat, minor: nat)
    ensures BitOr(BitAnd(minor, 0xff), Shl(major, 8)) == major * 0x100 + minor % 0x100
  {
    Powers();
    var k8: nat := 8;
    AndLowMask(minor, k8);
    ShlIsMul(major, k8);
    OrCommutes(minor % 0x100, major * 0x100);
    OrHigh(major, k8, minor % 0x100);
  }

  // ---- What the encodings promise ----

  /** The major and minor numbers are recovered exactly when they fit their fields. */
  lemma PartsOfMkDevIff(major: u32, minor: u32)
    ensures MkDev(major, minor) < TWO_32
    ensures Major(MkDev(major, minor)) == major && Minor(MkDev(major, minor)) == minor <==>
      major < MAJORS && minor < MINORS
  {
    MkDevFits(major, minor);
    PartsArithmetic(MkDev(major, minor));
    if minor < MINORS {
      MkDevArithmetic(major, minor);
      FieldsOf(major % MAJORS, minor);
    }
  }

  lemma FieldsOf(high: nat, low: nat)
    requires low < MINORS
    ensures (high * MINORS + low) / MINORS == high && (high * MINORS + low) % MINORS == low
  {
  }

  lemma MkDevFits(major: u32, minor: u32)
    ensures MkDev(major, minor) < TWO_32
  {
    Powers();
    var k: nat := 32;
    OrFits(Shl(major, 20) % TWO_32, minor, k);
  }

  lemma {:induction false} OrFits(a: nat, b: nat, k: nat)
    requires a < Pow2(k) && b < Pow2(k)
    ensures BitOr(a, b) < Pow2(k)
    decreases k
  {
    if k > 0 { OrFits(a / 2, b / 2, k - 1); }
  }

  /** Splitting any kernel device number and putting it together again. */
  lemma MkDevOfParts(dev: u32)
    ensures Major(dev) < MAJORS && Minor(dev) < MINORS && MkDev(Major(dev), Minor(dev)) == dev
  {
    PartsArithmetic(dev);
    MkDevArithmetic(dev / MINORS, dev % MINORS);
  }

  /** Two volumes on different devices never share a key, as long as the numbers fit their fields. */
  lemma MkDevInjective(major: u32, minor: u32, major': u32, minor': u32)
    requires major < MAJORS && minor < MINORS && major' < MAJORS && minor' < MINORS
    requires MkDev(major, minor) == MkDev(major', minor')
    ensures major == major' && minor == minor'
  {
    PartsOfMkDevIff(major, minor);
    PartsOfMkDevIff(major', minor');
  }

  /** The device that stat reports for a block volume gets the key the kernel uses for it. */
  lemma StatAgreesWithKernel(major: nat, minor: nat)
    requires major < MAJORS && minor < MINORS
    ensures UserDev(major, minor) < TWO_32
    ensures StatMajor(UserDev(major, minor)) == major && StatMinor(UserDev(major, minor)) == minor
  {
    UserDevArithmetic(major, minor);
    var d := UserDev(major, minor);
    StatArithmetic(d);
    UserDevParts(major, minor / 0x100, minor % 0x100);
  }

  lemma UserDevParts(major: nat, high: nat, low: nat)
    requires major < MAJORS && high < MAJORS && low < 0x100
    ensures var d := high * MINORS + major * 0x100 + low;
            (d / 0x100) % MAJORS == major && (d / MINORS) % MAJORS == high && d % 0x100 == low
  {
  }

  /** A printed device number reads back, as a mountinfo field would, to the same key. */
  lemma PrintedDeviceRoundTrip(dev: u32)
    ensures ParseDevice(DevToString(dev)).Some?
    ensures var d := ParseDevice(DevToString(dev)).value; MkDev(d.0, d.1) == dev
  {
    PartsArithmetic(dev);
    var a, b := Decimal(Major(dev)), Decimal(Minor(dev));
    CutJoined(a, b, ':');
    ParseUintOfDecimal(Major(dev), TWO_32);
    ParseUintOfDecimal(Minor(dev), TWO_32);
    MkDevOfParts(dev);
  }

  /** Out of its field the minor number spills into the major one: two devices with one key. */
  lemma WideMinorsCollide()
    ensures MkDev(0, MINORS) == MkDev(1, 0)
  {
    Powers();
    var k: nat := 20;
    ShlIsMul(1, k);
    ShlZero(k);
    OrZero(MINORS);
    OrCommutes(0, MINORS);
  }
}

/** Integer mode to POSIX permission set (PosixModes.intModeToPosix).

    The nine permissions are those of java.nio.file.attribute.PosixFilePermission,
    in declaration order; that order is the table the source indexes. A Java `int`
    is modelled by its 32-bit pattern (`bv32`). The octal mode bits follow POSIX.1
    <sys/stat.h>: S_IRUSR = 0400 down to S_IXOTH = 01, so bit k (k = 0 the least
    significant) is the permission at index 8 - k of the table.
 */
module PosixModes {

  datatype Permission =
    | OwnerRead | OwnerWrite | OwnerExecute
    | GroupRead | GroupWrite | GroupExecute
    | OthersRead | OthersWrite | OthersExecute

  /** PosixFilePermission.values(): the declaration order. */
  const PERMISSIONS: seq<Permission> :=
    [OwnerRead, OwnerWrite, OwnerExecute,
     GroupRead, GroupWrite, GroupExecute,
     OthersRead, OthersWrite, OthersExecute]

  const PERMISSIONS_LENGTH: nat := 9

  /** (1 << PERMISSIONS_LENGTH) - 1, that is 0777. */
  const INT_MODE_MAX: bv32 := 0x1FF

  /** Every permission; the universe a permission set is drawn from. */
  const ALL: set<Permission> := set i | 0 <= i < 9 :: PERMISSIONS[i]

  /** Position of a permission in the declaration order. */
  function Ordinal(p: Permission): (n: nat)
    ensures n < 9 && PERMISSIONS[n] == p
  {
    match p
    case OwnerRead => 0
    case OwnerWrite => 1
    case OwnerExecute => 2
    case GroupRead => 3
    case GroupWrite => 4
    case GroupExecute => 5
    case OthersRead => 6
    case OthersWrite => 7
    case OthersExecute => 8
  }

  lemma OrdinalOfIndex(i: nat)
    requires i < 9
    ensures Ordinal(PERMISSIONS[i]) == i
  {
  }

  lemma AllIsEveryPermission(p: Permission)
    ensures p in ALL
  {
    assert PERMISSIONS[Ordinal(p)] == p;
  }

  /** The mode halved k times: the value the source's loop holds after k
      iterations of `intMode >>= 1` (on the non-negative values that reach it). */
  function Shifted(m: nat, k: nat): nat {
    if k == 0 then m else Shifted(m, k - 1) / 2
  }

  lemma {:induction false} ShiftedHalf(m: nat, k: nat)
    ensures Shifted(m, k + 1) == Shifted(m / 2, k)
  {
    if k > 0 {
      ShiftedHalf(m, k - 1);
    }
  }

  /** Bit k of a mode, k = 0 being the least significant one: the source's
      `(intMode & 1) == 1` after k shifts. */
  predicate Bit(m: nat, k: nat) {
    Shifted(m, k) % 2 == 1
  }

  function Pow2(n: nat): nat {
    if n == 0 then 1 else 2 * Pow2(n - 1)
  }

  /** Two numbers below 2^n with the same low n bits are equal. */
  lemma {:induction false} SameLowBits(m: nat, n: nat, width: nat)
    requires m < Pow2(width) && n < Pow2(width)
    requires forall k :: 0 <= k < width ==> (Bit(m, k) <==> Bit(n, k))
    ensures m == n
  {
    if width > 0 {
      forall k | 0 <= k < width - 1
        ensures Bit(m / 2, k) <==> Bit(n / 2, k)
      {
        ShiftedHalf(m, k);
        ShiftedHalf(n, k);
        assert Bit(m, k + 1) <==> Bit(n, k + 1);
      }
      SameLowBits(m / 2, n / 2, width - 1);
      assert Bit(m, 0) <==> Bit(n, 0);
    }
  }

  function Digit(b: bool): nat {
    if b then 1 else 0
  }

  /** The check of the source, on the 32-bit pattern of the Java int: no bit
      outside the low nine. */
  predicate ValidIntMode(m: bv32) {
    m & INT_MODE_MAX == m
  }

  /** The value of a 32-bit pattern read as a Java (two's complement) int. */
  function JavaInt(m: bv32): int {
    if m < 0x8000_0000 then m as int else m as int - 0x1_0000_0000
  }

  /** The source's bit test is exactly the range check 0 <= mode <= 0777 on the
      Java int: every negative int and every value from 01000 up is rejected. */
  lemma ValidIffInRange(m: bv32)
    ensures ValidIntMode(m) <==> 0 <= JavaInt(m) <= 511
  {
  }

  /** A mode that passed the check, as a number. */
  type Mode = m: nat | m <= 511

  /** The permissions contributed by the low n bits: PERMISSIONS[8 - k] for
      every set bit k below n. */
  function LowPermissions(m: nat, n: nat): set<Permission>
    requires n <= 9
  {
    set k | 0 <= k < n && Bit(m, k) :: PERMISSIONS[8 - k]
  }

  /** The set a valid mode denotes. */
  function ModeToPermissions(m: Mode): set<Permission> {
    LowPermissions(m, 9)
  }

  lemma LowPermissionsStep(m: nat, n: nat)
    requires n < 9
    ensures LowPermissions(m, n + 1)
      == LowPermissions(m, n) + (if Bit(m, n) then {PERMISSIONS[8 - n]} else {})
  {
  }

  /** The inverse direction, written bit by bit with the octal constants of
      <sys/stat.h>; it is the partner of ModeToPermissions. */
  function PermissionsToMode(s: set<Permission>): Mode {
    256 * Digit(OwnerRead in s)          // S_IRUSR 0400
    + 128 * Digit(OwnerWrite in s)       // S_IWUSR 0200
    + 64 * Digit(OwnerExecute in s)      // S_IXUSR 0100
    + 32 * Digit(GroupRead in s)         // S_IRGRP 040
    + 16 * Digit(GroupWrite in s)        // S_IWGRP 020
    + 8 * Digit(GroupExecute in s)       // S_IXGRP 010
    + 4 * Digit(OthersRead in s)         // S_IROTH 04
    + 2 * Digit(OthersWrite in s)        // S_IWOTH 02
    + Digit(OthersExecute in s)          // S_IXOTH 01
  }

  datatype ModeResult = Permissions(perms: set<Permission>) | InvalidIntMode

  /** intModeToPosix: reject any bit outside 0777, then walk the nine low bits
      from the least significant one, shifting the mode right each time. Past the
      check the value is non-negative, where `& 1` is `% 2` and `>>= 1` is `/ 2`. */
  method IntModeToPosix(intMode: bv32) returns (r: ModeResult)
    ensures r.InvalidIntMode? <==> !ValidIntMode(intMode)
    ensures r.Permissions? ==> r.perms == ModeToPermissions(JavaInt(intMode))
  {
    if intMode & INT_MODE_MAX != intMode {
      return InvalidIntMode;
    }
    ValidIffInRange(intMode);
    var value: Mode := JavaInt(intMode);
    var perms: set<Permission> := {};
    var mode: nat := value;
    for i := 0 to PERMISSIONS_LENGTH
      invariant mode == Shifted(value, i)
      invariant perms == LowPermissions(value, i)
    {
      LowPermissionsStep(value, i);
      if mode % 2 == 1 {
        perms := perms + {PERMISSIONS[PERMISSIONS_LENGTH - i - 1]};
      }
      mode := mode / 2;
    }
    return Permissions(perms);
  }

  /** Membership in the result, one permission at a time. */
  lemma MemberIffBit(m: Mode, i: nat)
    requires i < 9
    ensures PERMISSIONS[i] in ModeToPermissions(m) <==> Bit(m, 8 - i)
  {
    if Bit(m, 8 - i) {
      assert PERMISSIONS[8 - (8 - i)] in ModeToPermissions(m);
    }
    if PERMISSIONS[i] in ModeToPermissions(m) {
      var k :| 0 <= k < 9 && Bit(m, k) && PERMISSIONS[8 - k] == PERMISSIONS[i];
      OrdinalOfIndex(8 - k);
      OrdinalOfIndex(i);
    }
  }

  /** The first n permissions of the table read as binary digits, the first
      one the most significant. */
  function Horner(s: set<Permission>, n: nat): nat
    requires n <= 9
  {
    if n == 0 then 0 else 2 * Horner(s, n - 1) + Digit(PERMISSIONS[n - 1] in s)
  }

  lemma {:induction false} HornerBit(s: set<Permission>, n: nat, k: nat)
    requires k < n <= 9
    ensures Bit(Horner(s, n), k) <==> PERMISSIONS[n - 1 - k] in s
  {
    var h := Horner(s, n - 1);
    var d := Digit(PERMISSIONS[n - 1] in s);
    assert Horner(s, n) / 2 == h && Horner(s, n) % 2 == d by {
      assert Horner(s, n) == 2 * h + d;
    }
    if k > 0 {
      ShiftedHalf(Horner(s, n), k - 1);
      HornerBit(s, n - 1, k - 1);
    }
  }

  /** The octal sum is the table read as a binary number. */
  lemma PermissionsToModeHorner(s: set<Permission>)
    ensures PermissionsToMode(s) == Horner(s, 9)
  {
    assert Horner(s, 1) == Digit(OwnerRead in s);
    assert Horner(s, 2) == 2 * Horner(s, 1) + Digit(OwnerWrite in s);
    assert Horner(s, 3) == 2 * Horner(s, 2) + Digit(OwnerExecute in s);
    assert Horner(s, 4) == 2 * Horner(s, 3) + Digit(GroupRead in s);
    assert Horner(s, 5) == 2 * Horner(s, 4) + Digit(GroupWrite in s);
    assert Horner(s, 6) == 2 * Horner(s, 5) + Digit(GroupExecute in s);
    assert Horner(s, 7) == 2 * Horner(s, 6) + Digit(OthersRead in s);
    assert Horner(s, 8) == 2 * Horner(s, 7) + Digit(OthersWrite in s);
    assert Horner(s, 9) == 2 * Horner(s, 8) + Digit(OthersExecute in s);
  }

  /** Bit k of PermissionsToMode(s) is set exactly when PERMISSIONS[8 - k] is in s. */
  lemma BitOfPermissionsToMode(s: set<Permission>, k: nat)
    requires k < 9
    ensures Bit(PermissionsToMode(s), k) <==> PERMISSIONS[8 - k] in s
  {
    PermissionsToModeHorner(s);
    HornerBit(s, 9, k);
  }

  /** Converting a valid mode to permissions and back yields the mode. */
  lemma {:induction false} RoundTripMode(m: Mode)
    ensures PermissionsToMode(ModeToPermissions(m)) == m
  {
    var s := ModeToPermissions(m);
    var n := PermissionsToMode(s);
    forall k | 0 <= k < 9
      ensures Bit(m, k) <==> Bit(n, k)
    {
      MemberIffBit(m, 8 - k);
      BitOfPermissionsToMode(s, k);
    }
    assert Pow2(9) == 512;
    SameLowBits(m, n, 9);
  }

  /** Converting any permission set to a mode and back yields the set. */
  lemma {:induction false} RoundTripPermissions(s: set<Permission>)
    ensures ModeToPermissions(PermissionsToMode(s)) == s
  {
    var m := PermissionsToMode(s);
    forall p: Permission
      ensures p in ModeToPermissions(m) <==> p in s
    {
      var i := Ordinal(p);
      MemberIffBit(m, i);
      BitOfPermissionsToMode(s, 8 - i);
    }
  }

  /** Distinct valid modes give distinct permission sets. */
  lemma {:induction false} Injective(m1: Mode, m2: Mode)
    requires ModeToPermissions(m1) == ModeToPermissions(m2)
    ensures m1 == m2
  {
    RoundTripMode(m1);
    RoundTripMode(m2);
  }

  /** Number of set bits among the low n bits. */
  function BitCount(m: nat, n: nat): nat {
    if n == 0 then 0 else BitCount(m, n - 1) + (if Bit(m, n - 1) then 1 else 0)
  }

  lemma {:induction false} LowPermissionsCount(m: nat, n: nat)
    requires n <= 9
    ensures |LowPermissions(m, n)| == BitCount(m, n)
  {
    if n == 0 {
      assert LowPermissions(m, 0) == {};
    } else {
      LowPermissionsCount(m, n - 1);
      LowPermissionsStep(m, n - 1);
      var prev := LowPermissions(m, n - 1);
      assert PERMISSIONS[8 - (n - 1)] !in prev by {
        if PERMISSIONS[8 - (n - 1)] in prev {
          var k :| 0 <= k < n - 1 && Bit(m, k) && PERMISSIONS[8 - k] == PERMISSIONS[8 - (n - 1)];
          OrdinalOfIndex(8 - k);
          OrdinalOfIndex(8 - (n - 1));
        }
      }
    }
  }

  /** The result has as many permissions as the mode has set bits. */
  lemma SizeIsBitCount(m: Mode)
    ensures |ModeToPermissions(m)| == BitCount(m, 9)
  {
    LowPermissionsCount(m, 9);
  }

  /** 0 gives no permission and 0777 gives all nine. */
  lemma {:induction false} Extremes()
    ensures ModeToPermissions(0) == {}
    ensures ModeToPermissions(511) == ALL
  {
    RoundTripPermissions({});
    forall p: Permission ensures p in ALL {
      AllIsEveryPermission(p);
    }
    RoundTripPermissions(ALL);
  }

  /** Octal 0755 is rwxr-xr-x. */
  lemma {:induction false} Mode0755()
    ensures ModeToPermissions(493) == {OwnerRead, OwnerWrite, OwnerExecute, GroupRead, GroupExecute, OthersRead, OthersExecute}
  {
    assert PermissionsToMode({OwnerRead, OwnerWrite, OwnerExecute, GroupRead, GroupExecute, OthersRead, OthersExecute}) == 493;
    RoundTripPermissions({OwnerRead, OwnerWrite, OwnerExecute, GroupRead, GroupExecute, OthersRead, OthersExecute});
  }

  /** Octal 0640 is rw-r-----. */
  lemma {:induction false} Mode0640()
    ensures ModeToPermissions(416) == {OwnerRead, OwnerWrite, GroupRead}
  {
    assert PermissionsToMode({OwnerRead, OwnerWrite, GroupRead}) == 416;
    RoundTripPermissions({OwnerRead, OwnerWrite, GroupRead});
  }

  /** Octal 0404 is r-----r--. */
  lemma {:induction false} Mode0404()
    ensures ModeToPermissions(260) == {OwnerRead, OthersRead}
  {
    assert PermissionsToMode({OwnerRead, OthersRead}) == 260;
    RoundTripPermissions({OwnerRead, OthersRead});
  }

  /** Octal 0071 is ---rwx--x. */
  lemma {:induction false} Mode0071()
    ensures ModeToPermissions(57) == {GroupRead, GroupWrite, GroupExecute, OthersExecute}
  {
    assert PermissionsToMode({GroupRead, GroupWrite, GroupExecute, OthersExecute}) == 57;
    RoundTripPermissions({GroupRead, GroupWrite, GroupExecute, OthersExecute});
  }

  /** Octal 0400 is r--------. */
  lemma {:induction false} Mode0400()
    ensures ModeToPermissions(256) == {OwnerRead}
  {
    assert PermissionsToMode({OwnerRead}) == 256;
    RoundTripPermissions({OwnerRead});
  }

  /** Octal 0001 is --------x. */
  lemma {:induction false} Mode0001()
    ensures ModeToPermissions(1) == {OthersExecute}
  {
    assert PermissionsToMode({OthersExecute}) == 1;
    RoundTripPermissions({OthersExecute});
  }
}

/** The `AccessFlags` role table of helpers/access-flags.ts.

    Every entry is declared as `1 << n`. The table is read two ways:
    - the mathematical reading, where `1 << n` is 2^n as an unbounded natural;
    - the JavaScript reading, where `<<` is Number::leftShift of ECMA-262
      (section 6.1.6.1.9 of the 2020 and later editions): the left operand is
      converted to a signed 32-bit integer, the shift count is taken modulo 32,
      and the result is a signed 32-bit integer.
    The two readings agree on every entry whose shift is below 32 and differ on
    the three entries declared with shifts 64, 65 and 66. */
module AccessFlags {
  import opened Bits

  datatype Flag =
    | EmergencyAdmin
    | PoolAdmin
    | TreasuryAdmin
    | RewardConfigAdmin
    | RewardRateAdmin
    | StakeAdmin
    | ReferralAdmin
    | LiquidityController
    | LendingPool
    | LendingPoolConfigurator
    | LendingPoolCollateralManager
    | PriceOracle
    | LendingRateOracle
    | Treasury
    | RewardToken
    | RewardStakeToken
    | RewardController
    | RewardConfigurator
    | StakeConfigurator
    | ReferralRegistry
    | WethGateway
    | RewardMint
    | RewardBurn
    | PoolSponsoredLoanUser

  /** The right operand `n` of `1 << n` in each declaration: every entry up
      to line 28 uses a shift of at most 27, and the last three use 64, 65 and
      66. */
  function DeclaredShift(f: Flag): (r: nat)
    ensures r <= 27 || 64 <= r <= 66
  {
    match f
    case EmergencyAdmin => 0
    case PoolAdmin => 1
    case TreasuryAdmin => 2
    case RewardConfigAdmin => 3
    case RewardRateAdmin => 4
    case StakeAdmin => 5
    case ReferralAdmin => 6
    case LiquidityController => 15
    case LendingPool => 16
    case LendingPoolConfigurator => 17
    case LendingPoolCollateralManager => 18
    case PriceOracle => 19
    case LendingRateOracle => 20
    case Treasury => 21
    case RewardToken => 22
    case RewardStakeToken => 23
    case RewardController => 24
    case RewardConfigurator => 25
    case StakeConfigurator => 26
    case ReferralRegistry => 27
    case WethGateway => 27
    case RewardMint => 64
    case RewardBurn => 65
    case PoolSponsoredLoanUser => 66
  }

  // ---------------------------------------------------------------------------
  // The mathematical reading

  /** The flag's value when `1 << n` means 2^n: the declared bit is set. */
  function MathValue(f: Flag): (r: nat)
    ensures Bit(r, DeclaredShift(f))
  {
    Pow2SingleBit(DeclaredShift(f), DeclaredShift(f));
    Pow2(DeclaredShift(f))
  }

  /** Each mathematical value has exactly one set bit, at the declared shift. */
  lemma MathValueSingleBit(f: Flag, n: nat)
    ensures Bit(MathValue(f), n) <==> n == DeclaredShift(f)
  {
    Pow2SingleBit(DeclaredShift(f), n);
  }

  /** The one alias written into the table itself: two names on bit 27. */
  predicate DeclaredAlias(f: Flag, g: Flag)
  {
    || (f == ReferralRegistry && g == WethGateway)
    || (f == WethGateway && g == ReferralRegistry)
  }

  /** The aliases that appear only because `<<` reduces its count modulo 32:
      shifts 64, 65 and 66 land on bits 0, 1 and 2. */
  predicate WrappedAlias(f: Flag, g: Flag)
  {
    || (f == RewardMint && g == EmergencyAdmin)
    || (f == EmergencyAdmin && g == RewardMint)
    || (f == RewardBurn && g == PoolAdmin)
    || (f == PoolAdmin && g == RewardBurn)
    || (f == PoolSponsoredLoanUser && g == TreasuryAdmin)
    || (f == TreasuryAdmin && g == PoolSponsoredLoanUser)
  }

  /** The flag that owns bit position n, choosing REFERRAL_REGISTRY for bit 27
      and EMERGENCY_ADMIN for positions no flag uses. */
  function FlagAt(n: nat): Flag
  {
    if n == 0 then EmergencyAdmin
    else if n == 1 then PoolAdmin
    else if n == 2 then TreasuryAdmin
    else if n == 3 then RewardConfigAdmin
    else if n == 4 then RewardRateAdmin
    else if n == 5 then StakeAdmin
    else if n == 6 then ReferralAdmin
    else if n == 15 then LiquidityController
    else if n == 16 then LendingPool
    else if n == 17 then LendingPoolConfigurator
    else if n == 18 then LendingPoolCollateralManager
    else if n == 19 then PriceOracle
    else if n == 20 then LendingRateOracle
    else if n == 21 then Treasury
    else if n == 22 then RewardToken
    else if n == 23 then RewardStakeToken
    else if n == 24 then RewardController
    else if n == 25 then RewardConfigurator
    else if n == 26 then StakeConfigurator
    else if n == 27 then ReferralRegistry
    else if n == 64 then RewardMint
    else if n == 65 then RewardBurn
    else if n == 66 then PoolSponsoredLoanUser
    else EmergencyAdmin
  }

  /** Two flags are declared with the same shift exactly when they are the same
      flag or the declared bit-27 pair. */
  lemma SameDeclaredShift(f: Flag, g: Flag)
    ensures DeclaredShift(f) == DeclaredShift(g) <==> f == g || DeclaredAlias(f, g)
  {
    if DeclaredShift(f) == DeclaredShift(g) {
      assert FlagAt(DeclaredShift(f)) == FlagAt(DeclaredShift(g));
    }
  }

  /** Under the mathematical reading the only equal-valued pair of distinct
      names is REFERRAL_REGISTRY / WETH_GATEWAY; in particular REWARD_MINT,
      REWARD_BURN and POOL_SPONSORED_LOAN_USER differ from every other flag. */
  lemma MathCollisions(f: Flag, g: Flag)
    ensures MathValue(f) == MathValue(g) <==> f == g || DeclaredAlias(f, g)
  {
    Pow2Injective(DeclaredShift(f), DeclaredShift(g));
    SameDeclaredShift(f, g);
  }

  /** Under the mathematical reading the table needs 67 bits: no value has a
      bit set at position 67 or above, and POOL_SPONSORED_LOAN_USER sets bit
      66. */
  lemma MathWidth(f: Flag, n: nat)
    ensures Bit(MathValue(f), n) ==> n < 67
    ensures f == PoolSponsoredLoanUser && n == 66 ==> Bit(MathValue(f), n)
  {
    MathValueSingleBit(f, n);
    DeclaredShiftRange(f);
  }

  /** Exactly the three entries declared at shifts of 32 or more have values
      that do not fit a 32-bit word. */
  lemma BeyondThirtyTwoBits(f: Flag)
    ensures Pow2(32) <= MathValue(f) <==> f in {RewardMint, RewardBurn, PoolSponsoredLoanUser}
  {
    var n := DeclaredShift(f);
    DeclaredShiftRange(f);
    if n < 32 {
      Pow2StrictlyIncreasing(n, 32);
    } else {
      Pow2StrictlyIncreasing(32, n);
    }
  }

  /** Every declared shift is at most 27 except the three at 64, 65 and 66. */
  lemma DeclaredShiftRange(f: Flag)
    ensures DeclaredShift(f) <= 27 || 64 <= DeclaredShift(f) <= 66
    ensures 64 <= DeclaredShift(f) <==> f in {RewardMint, RewardBurn, PoolSponsoredLoanUser}
  {
  }

  // ---------------------------------------------------------------------------
  // The JavaScript reading

  /** ECMA-262 ToUint32 of an integral Number. */
  function ToUint32(x: int): (r: nat)
    ensures r < 0x1_0000_0000
    ensures (x - r) % 0x1_0000_0000 == 0
    ensures 0 <= x < 0x1_0000_0000 ==> r == x
  {
    x % 0x1_0000_0000
  }

  /** ECMA-262 ToInt32 of an integral Number. */
  function ToInt32(x: int): (r: int)
    ensures -0x8000_0000 <= r < 0x8000_0000
    ensures (x - r) % 0x1_0000_0000 == 0
    ensures -0x8000_0000 <= x < 0x8000_0000 ==> r == x
  {
    var m := x % 0x1_0000_0000;
    if m >= 0x8000_0000 then m - 0x1_0000_0000 else m
  }

  /** Number::leftShift(x, y) on integral Numbers, stated arithmetically: the
      count is ToUint32(y) modulo 32 and the product is wrapped to int32. */
  function LeftShift(x: int, y: int): (r: int)
    ensures -0x8000_0000 <= r < 0x8000_0000
  {
    ToInt32(ToInt32(x) * Pow2(ToUint32(y) % 32))
  }

  /** The shift `<<` actually performs for a flag. */
  function EvaluatedShift(f: Flag): (r: nat)
    ensures r < 32
  {
    DeclaredShift(f) % 32
  }

  /** The 32-bit word `1 << n` produces for a flag: read as an unsigned
      number, it is 2^(n mod 32). */
  function JsBits(f: Flag): (r: bv32)
    ensures r as int == Pow2(EvaluatedShift(f))
  {
    ShiftOneIsPow2(EvaluatedShift(f));
    (1 as bv32) << EvaluatedShift(f)
  }

  /** Proof helper: names the word JsBits computes, so that callers need not
      case-split on the flag to evaluate it. */
  lemma JsBitsShift(f: Flag)
    ensures JsBits(f) == (1 as bv32) << EvaluatedShift(f)
  {
  }

  /** A 32-bit word read as a two's-complement signed integer. */
  function SignedValue(b: bv32): (r: int)
    ensures -0x8000_0000 <= r < 0x8000_0000
  {
    if b as int < 0x8000_0000 then b as int else b as int - 0x1_0000_0000
  }

  /** No flag's shift, once reduced modulo 32, reaches the sign bit 31. */
  lemma EvaluatedShiftBelowSignBit(f: Flag)
    ensures EvaluatedShift(f) <= 27
  {
  }

  /** The flag's value as JavaScript evaluates the enum: the bv32 word read as
      int32, equal to the arithmetic Number::leftShift(1, n), equal to 2^(n mod
      32), and always a positive int32. */
  function JsValue(f: Flag): (r: int)
    ensures r == LeftShift(1, DeclaredShift(f))
    ensures r == Pow2(DeclaredShift(f) % 32)
    ensures 0 < r < 0x8000_0000
  {
    JsBitsArePositivePowers(f);
    ShiftCountIsEvaluatedShift(f);
    SignedValue(JsBits(f))
  }

  /** The two readings agree exactly on the entries whose declared shift is
      below 32; they differ on the three entries of lines 29-32. */
  lemma ReadingsAgree(f: Flag)
    ensures MathValue(f) == JsValue(f) <==> DeclaredShift(f) < 32
  {
    ReducedPowerAgrees(DeclaredShift(f));
  }

  /** 2^n and 2^(n mod 32) agree exactly when n is below 32. */
  lemma ReducedPowerAgrees(n: nat)
    ensures Pow2(n) == Pow2(n % 32) <==> n < 32
  {
    if n >= 32 {
      Pow2StrictlyIncreasing(n % 32, n);
    }
  }

  /** The word of every flag is a power of two below the sign bit. */
  lemma JsBitsArePositivePowers(f: Flag)
    ensures SignedValue(JsBits(f)) == Pow2(EvaluatedShift(f)) < 0x8000_0000
  {
    var k := EvaluatedShift(f);
    EvaluatedShiftBelowSignBit(f);
    Pow2BelowSignBit(k);
    ShiftOneIsPow2(k);
    JsBitsShift(f);
    assert JsBits(f) as int == Pow2(k);
  }

  /** Number::leftShift's count, ToUint32(n) modulo 32, is the evaluated shift. */
  lemma ShiftCountIsEvaluatedShift(f: Flag)
    ensures ToUint32(DeclaredShift(f)) % 32 == EvaluatedShift(f)
  {
    DeclaredShiftRange(f);
    var n := DeclaredShift(f);
    assert ToUint32(n) == n;
  }

  lemma Pow2BelowSignBit(k: nat)
    requires k < 31
    ensures Pow2(k) < 0x8000_0000
  {
    Pow2Add(10, 10);
    Pow2Add(20, 11);
    assert Pow2(10) == 1024;
    assert Pow2(11) == 2048;
    Pow2StrictlyIncreasing(k, 31);
  }

  /** Two flags evaluate to the same shift exactly when they are the same flag,
      the declared bit-27 pair, or one of the three wrapped pairs. */
  lemma SameEvaluatedShift(f: Flag, g: Flag)
    ensures EvaluatedShift(f) == EvaluatedShift(g) <==> f == g || DeclaredAlias(f, g) || WrappedAlias(f, g)
  {
    WrapsOnto(f);
    WrapsOnto(g);
    SameDeclaredShift(Unwrapped(f), Unwrapped(g));
    UnwrappedAliases(f, g);
  }

  /** Two flags unwrap to the same flag or to the declared pair exactly when
      they are the same, the declared pair, or a wrapped pair. */
  lemma UnwrappedAliases(f: Flag, g: Flag)
    ensures Unwrapped(f) == Unwrapped(g) || DeclaredAlias(Unwrapped(f), Unwrapped(g)) <==>
      f == g || DeclaredAlias(f, g) || WrappedAlias(f, g)
  {
  }

  /** The flag whose declared shift equals f's evaluated shift: the wrapped
      entries are sent to the flags at bits 0, 1 and 2. */
  function Unwrapped(f: Flag): Flag
  {
    match f
    case RewardMint => EmergencyAdmin
    case RewardBurn => PoolAdmin
    case PoolSponsoredLoanUser => TreasuryAdmin
    case _ => f
  }

  lemma WrapsOnto(f: Flag)
    ensures EvaluatedShift(f) == DeclaredShift(Unwrapped(f))
  {
  }

  /** Under JavaScript semantics the equal-valued pairs of distinct names are
      exactly REFERRAL_REGISTRY / WETH_GATEWAY and the three pairs REWARD_MINT /
      EMERGENCY_ADMIN, REWARD_BURN / POOL_ADMIN and POOL_SPONSORED_LOAN_USER /
      TREASURY_ADMIN; every other pair is distinct. */
  lemma JsCollisions(f: Flag, g: Flag)
    ensures JsValue(f) == JsValue(g) <==> f == g || DeclaredAlias(f, g) || WrappedAlias(f, g)
  {
    Pow2Injective(EvaluatedShift(f), EvaluatedShift(g));
    SameEvaluatedShift(f, g);
  }

  /** The three wrapped entries evaluate to 1, 2 and 4. */
  lemma WrappedValues()
    ensures JsValue(RewardMint) == 1 == JsValue(EmergencyAdmin)
    ensures JsValue(RewardBurn) == 2 == JsValue(PoolAdmin)
    ensures JsValue(PoolSponsoredLoanUser) == 4 == JsValue(TreasuryAdmin)
  {
    assert Pow2(0) == 1 && Pow2(1) == 2 && Pow2(2) == 4;
    WrapsOnto(RewardMint);
    WrapsOnto(RewardBurn);
    WrapsOnto(PoolSponsoredLoanUser);
  }

  // ---------------------------------------------------------------------------
  // Role masks

  /** A 32-bit role mask grants a flag when it holds the flag's evaluated bit. */
  predicate Grants(mask: bv32, f: Flag)
  {
    mask & JsBits(f) != 0
  }

  /** The mask `(1 << 5) | (1 << 25) | (1 << 24) | (1 << 27) | (1 << 3)` that
      the local staking migration grants to its root account. */
  const LocalStakingRootRoles: bv32 := (1 << 5) | (1 << 25) | (1 << 24) | (1 << 27) | (1 << 3)

  /** The bit positions that mask holds: 3, 5, 24, 25 and 27. */
  predicate RootRoleShift(k: nat)
  {
    k == 3 || k == 5 || k == 24 || k == 25 || k == 27
  }

  lemma LocalStakingRootRolesBits(k: nat)
    requires k < 32
    ensures LocalStakingRootRoles & ((1 as bv32) << k) != 0 <==> RootRoleShift(k)
  {
  }

  /** That mask grants exactly STAKE_ADMIN, REWARD_CONFIGURATOR,
      REWARD_CONTROLLER, REWARD_CONFIG_ADMIN and bit 27, which is both
      REFERRAL_REGISTRY and WETH_GATEWAY. */
  lemma LocalStakingRootRolesDecode(f: Flag)
    ensures Grants(LocalStakingRootRoles, f) <==>
      f in {StakeAdmin, RewardConfigurator, RewardController, RewardConfigAdmin, ReferralRegistry, WethGateway}
  {
    JsBitsShift(f);
    LocalStakingRootRolesBits(EvaluatedShift(f));
    RootRoleShifts(f);
  }

  /** The flags whose evaluated bit is one of the mask's. */
  lemma RootRoleShifts(f: Flag)
    ensures RootRoleShift(EvaluatedShift(f)) <==>
      f in {StakeAdmin, RewardConfigurator, RewardController, RewardConfigAdmin, ReferralRegistry, WethGateway}
  {
  }
}

/** Candidate and pair priorities (RFC 5245, sections 4.1.2.1 and 5.7.2) in the widths the sources compute them in. */
module Priorities {
  import opened Octets

  function Min(g: nat, d: nat): nat {
    if g < d then g else d
  }

  function Max(g: nat, d: nat): nat {
    if g > d then g else d
  }

  /** The formula of RFC 5245 section 5.7.2. */
  function PairFormula(g: nat, d: nat): nat {
    0x1_0000_0000 * Min(g, d) + 2 * Max(g, d) + (if g > d then 1 else 0)
  }

  /** `IceConnection::priority`: twice the maximum is taken in 32 bits before it is widened. */
  function PairPriority(g: uint32, d: uint32): uint64 {
    Min(g, d) * 0x1_0000_0000 + (2 * Max(g, d)) % 0x1_0000_0000 + (if g > d then 1 else 0)
  }

  /** The code computes the formula exactly when both priorities are below 2^31, as RFC 5245 requires of candidates. */
  lemma PairPriorityIsFormula(g: uint32, d: uint32)
    ensures PairPriority(g, d) == PairFormula(g, d) <==> g < 0x8000_0000 && d < 0x8000_0000
  {
  }

  /**
   * A remote priority of 2^31 or more loses its top bit. Beside a lower local priority and a lower remote one the
   * formula always prefers it; the code does so exactly when the other is below the local priority or below what is
   * left of it.
   */
  lemma WrappedPriorityMisorders(g: uint32, d: uint32, d': uint32)
    requires g < 0x8000_0000 && d' < 0x8000_0000 <= d
    ensures PairFormula(g, d) > PairFormula(g, d')
    ensures PairPriority(g, d) > PairPriority(g, d') <==> d' < g || d' < d - 0x8000_0000
  {
  }

  /** Below 2^31 the pair priority orders pairs by minimum, then maximum, then the controlling side. */
  lemma PairPriorityIsLexicographic(g: uint32, d: uint32, g': uint32, d': uint32)
    requires g < 0x8000_0000 && d < 0x8000_0000 && g' < 0x8000_0000 && d' < 0x8000_0000
    ensures PairPriority(g, d) < PairPriority(g', d') <==>
            || Min(g, d) < Min(g', d')
            || (Min(g, d) == Min(g', d') && Max(g, d) < Max(g', d'))
            || (Min(g, d) == Min(g', d') && Max(g, d) == Max(g', d') && !(g > d) && g' > d')
  {
  }

  /** So different pairs never tie. */
  lemma PairPriorityIsInjective(g: uint32, d: uint32, g': uint32, d': uint32)
    requires g < 0x8000_0000 && d < 0x8000_0000 && g' < 0x8000_0000 && d' < 0x8000_0000
    requires PairPriority(g, d) == PairPriority(g', d')
    ensures g == g' && d == d'
  {
    PairPriorityIsLexicographic(g, d, g', d');
    PairPriorityIsLexicographic(g', d', g, d);
  }

  // ---- Candidates ----------------------------------------------------------------------------------

  const TYPE_PREFERENCE_PRFLX: uint32 := 110

  function LocalPreference(adapter: nat, address: nat, relay: nat): nat {
    Or(adapter * 0x100, address, 32) + relay
  }

  /** The adapter's part and the address's part do not overlap while the address precedence fits a byte. */
  lemma LocalPreferenceIsSum(adapter: nat, address: nat, relay: nat)
    requires adapter < 0x100_0000 && address < 0x100
    ensures LocalPreference(adapter, address, relay) == adapter * 0x100 + address + relay
  {
    hide Or, Pow2;
    Pow2Words();
    OrOfDisjointIsSum(adapter, address, 8, 32);
  }

  /** The shift-and-or expression of `Candidate::get_priority`. */
  function CandidatePriority(typePreference: nat, localPreference: nat, component: nat): nat
    requires component <= 256
  {
    Or(Or((typePreference * 0x100_0000) % 0x1_0000_0000, (localPreference * 0x100) % 0x1_0000_0000, 32),
       256 - component, 32)
  }

  /** The formula of RFC 5245 section 4.1.2.1. */
  function CandidateFormula(typePreference: nat, localPreference: nat, component: nat): int {
    0x100_0000 * typePreference + 0x100 * localPreference + (256 - component)
  }

  /** The fields do not overlap, so the or of the shifted parts is the sum of RFC 5245. */
  lemma CandidatePriorityIsFormula(typePreference: nat, localPreference: nat, component: nat)
    requires typePreference < 0x100 && localPreference < 0x1_0000 && 1 <= component <= 256
    ensures CandidatePriority(typePreference, localPreference, component) ==
            CandidateFormula(typePreference, localPreference, component)
  {
    hide Or, Pow2;
    Pow2Words();
    OrOfDisjointIsSum(typePreference, localPreference * 0x100, 24, 32);
    OrOfDisjointIsSum(typePreference * 0x1_0000 + localPreference, 256 - component, 8, 32);
  }

  const TYPE_PREFERENCE_HOST: uint32 := 126

  lemma FieldsFit(typePreference: nat, localPreference: nat, component: nat)
    requires typePreference < 0x100 && localPreference < 0x100_0000 && 1 <= component <= 256
    ensures CandidatePriority(typePreference, localPreference, component) ==
            Or(Or(typePreference * 0x100_0000, localPreference * 0x100, 32), 256 - component, 32)
  {
    hide Or;
  }

  lemma FieldsOrTogether(typePreference: nat, localPreference: nat, component: nat)
    requires typePreference < 0x100 && localPreference < 0x100_0000 && 1 <= component <= 256
    ensures CandidatePriority(typePreference, localPreference, component) ==
            Or(typePreference * 0x1_0000, localPreference, 24) * 0x100 + (256 - component)
  {
    hide *;
    var fields := Or(typePreference * 0x1_0000, localPreference, 24);
    FieldsFit(typePreference, localPreference, component);
    OrOfShifted(typePreference * 0x1_0000, localPreference, 8, 24);
    ShiftsByBytes(typePreference * 0x1_0000);
    ShiftsByBytes(localPreference);
    ShiftsByBytes(fields);
    OrFits(typePreference * 0x1_0000, localPreference, 24);
    LowByteOrs(fields, 256 - component);
  }

  lemma LowByteOrs(fields: nat, low: nat)
    requires fields < Pow2(24) && low < 0x100
    ensures Or(fields * 0x100, low, 32) == fields * 0x100 + low
  {
    hide Or, Pow2;
    Pow2Words();
    OrOfDisjointIsSum(fields, low, 8, 32);
  }

  lemma {:induction false} OrFits(a: nat, b: nat, bits: nat)
    ensures Or(a, b, bits) < Pow2(bits)
  {
    if bits > 0 {
      OrFits(a / 2, b / 2, bits - 1);
    }
  }

  /**
   * A local preference of 2^16 and more runs into the type preference. The or falls short of the sum by the bits the
   * two share, so it is the sum exactly when they share none.
   */
  lemma CandidatePriorityFallsShortByAnd(typePreference: nat, localPreference: nat, component: nat)
    requires typePreference < 0x100 && localPreference < 0x100_0000 && 1 <= component <= 256
    ensures var shared := And(typePreference, localPreference / 0x1_0000, 8);
            && CandidatePriority(typePreference, localPreference, component) ==
               CandidateFormula(typePreference, localPreference, component) - 0x100_0000 * shared
            && (shared == 0 <==> CandidatePriority(typePreference, localPreference, component) ==
                                 CandidateFormula(typePreference, localPreference, component))
  {
    hide Or, And, Pow2, Shl, Shr, CandidatePriority;
    Pow2Words();
    FieldsOrTogether(typePreference, localPreference, component);
    OrFallsShortByAnd(typePreference * 0x1_0000, localPreference, 24);
    AndOfShifted(typePreference, localPreference, 16, 8);
    ShiftsByBytes(typePreference);
    ShiftsByBytes(localPreference);
    ShiftsByBytes(And(typePreference, localPreference / 0x1_0000, 8));
  }

  /** For a host candidate bit 16 of the local preference is harmless and bit 17 is lost. */
  lemma WideLocalPreferenceLosesABit()
    ensures CandidatePriority(TYPE_PREFERENCE_HOST, 0x1_0000, 1) == CandidateFormula(TYPE_PREFERENCE_HOST, 0x1_0000, 1)
    ensures CandidatePriority(TYPE_PREFERENCE_HOST, 0x2_0000, 1) < CandidateFormula(TYPE_PREFERENCE_HOST, 0x2_0000, 1)
  {
    hide CandidatePriority;
    CandidatePriorityFallsShortByAnd(TYPE_PREFERENCE_HOST, 0x1_0000, 1);
    CandidatePriorityFallsShortByAnd(TYPE_PREFERENCE_HOST, 0x2_0000, 1);
    SharedWithHost();
  }

  lemma SharedWithHost()
    ensures And(TYPE_PREFERENCE_HOST, 1, 8) == 0 && And(TYPE_PREFERENCE_HOST, 2, 8) == 2
  {
    assert And(15, 0, 5) == And(7, 0, 4) * 2 && And(7, 0, 4) == And(3, 0, 3) * 2 && And(3, 0, 3) == And(1, 0, 2) * 2;
    assert And(1, 0, 2) == And(0, 0, 1) * 2 && And(0, 0, 1) == 0;
    assert And(126, 1, 8) == 2 * And(63, 0, 7) && And(63, 0, 7) == 2 * And(31, 0, 6);
    assert And(31, 0, 6) == 2 * And(15, 0, 5);
    assert And(126, 2, 8) == 2 * And(63, 1, 7) && And(63, 1, 7) == 2 * And(31, 0, 6) + 1;
  }

  /** A host candidate's own priority never wraps: only a priority received from the peer can. */
  lemma HostPriorityIsBelow2To31(localPreference: nat, component: nat, d: uint32)
    requires localPreference < 0x1_0000 && 1 <= component <= 256
    ensures var g := CandidatePriority(TYPE_PREFERENCE_HOST, localPreference, component);
            && g < 0x8000_0000
            && (PairPriority(g, d) == PairFormula(g, d) <==> d < 0x8000_0000)
            && PairPriority(g, 0x8000_0000) < PairPriority(g, g)
            && PairFormula(g, 0x8000_0000) > PairFormula(g, g)
  {
    hide CandidatePriority, PairPriority, PairFormula;
    CandidatePriorityIsFormula(TYPE_PREFERENCE_HOST, localPreference, component);
    var g := CandidatePriority(TYPE_PREFERENCE_HOST, localPreference, component);
    PairPriorityIsFormula(g, d);
    SmallestWrapLoses(g);
  }

  lemma SmallestWrapLoses(g: uint32)
    requires 0 < g < 0x8000_0000
    ensures PairPriority(g, 0x8000_0000) < PairPriority(g, g) && PairFormula(g, 0x8000_0000) > PairFormula(g, g)
  {
  }

  /** What a ping advertises: the local priority with the type preference replaced by 110. */
  function AdvertisedPriority(localPriority: uint32): (p: uint32)
    ensures p == TYPE_PREFERENCE_PRFLX * 0x100_0000 + localPriority % 0x100_0000
  {
    Pow2Words();
    OrOfDisjointIsSum(TYPE_PREFERENCE_PRFLX, localPriority % 0x100_0000, 24, 32);
    Or(TYPE_PREFERENCE_PRFLX * 0x100_0000, localPriority % 0x100_0000, 32)
  }

  /** The advertised priority is the one the candidate would have as peer reflexive (RFC 5245 section 7.1.2.1). */
  lemma AdvertisedIsPeerReflexive(typePreference: nat, localPreference: nat, component: nat)
    requires typePreference < 0x100 && localPreference < 0x1_0000 && 1 <= component <= 256
    ensures CandidatePriority(typePreference, localPreference, component) < 0x1_0000_0000
    ensures AdvertisedPriority(CandidatePriority(typePreference, localPreference, component)) ==
            CandidatePriority(TYPE_PREFERENCE_PRFLX, localPreference, component)
  {
    hide CandidatePriority;
    CandidatePriorityIsFormula(typePreference, localPreference, component);
    CandidatePriorityIsFormula(TYPE_PREFERENCE_PRFLX, localPreference, component);
  }
}

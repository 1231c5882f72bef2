/** Toll classification: `add_toll_source` infers which bridge, tunnel or authority a
    charged toll came from, `add_toll_paid` flags whether any toll was charged, and
    `filter_toll` drops toll-free trips and merges the sources into broad classes. */
module Tolls {
  import opened Results
  import opened Frames
  import opened Trips

  /** The eleven toll sources, in the order of the `sources` list of `add_toll_source`. */
  datatype TollSource =
    | NoToll | Cbgh | Hh | Vn | MtaOther | CbghMtaOther
    | HhMtaOther | VnMtaOther | Nypa | NypaMtaOther | OtherToll
  {
    /** The category name stored in the `toll_source` column. */
    function Name(): string {
      match this
      case NoToll => "NoToll"
      case Cbgh => "CBGH"
      case Hh => "HH"
      case Vn => "VN"
      case MtaOther => "MTA_Other"
      case CbghMtaOther => "CBGH_MTA_Other"
      case HhMtaOther => "HH_MTA_Other"
      case VnMtaOther => "VN_MTA_Other"
      case Nypa => "NYPA"
      case NypaMtaOther => "NYPA_MTA_Other"
      case OtherToll => "OtherToll"
    }
  }

  const Sources: seq<TollSource> :=
    [NoToll, Cbgh, Hh, Vn, MtaOther, CbghMtaOther, HhMtaOther, VnMtaOther, Nypa, NypaMtaOther, OtherToll]

  /** The canonical (EZ-pass off-peak) amount of each source, `Sources` order; 999 marks an unknown toll. */
  const Tolls: seq<real> := [0.0, 2.0, 2.44, 10.66, 5.33, 7.33, 7.77, 15.99, 9.75, 15.08, 999.0]

  /** The other historical rates of each of the sources CBGH .. NYPA_MTA_Other. */
  const TollConversions: seq<seq<real>> := [
    [4.0, 3.75, 7.50, 2.08, 4.16, 8.00],
    [4.88, 5.0, 10.0, 2.54, 5.08, 5.50, 11.0],
    [15.0, 11.08, 16.0],
    [5.54],
    [7.62],
    [8.08],
    [16.62],
    [11.75, 10.50, 12.50],
    [17.08, 16.04, 18.04, 15.29, 17.29]]

  const MtaOtherRate: real := 5.33
  const UnknownToll: real := 999.0

  /** Trips north of the Cross Bay / Gil Hodges bridges, and east of the Verrazzano-Narrows bridge. */
  const CbghNorthLatitude: real := 40.617
  const VnEastLongitude: real := -74.05

  /** The amounts the two geographic overrides look at. */
  const NorthOverrideAmounts: seq<real> := [7.50, 8.0]
  const EastOverrideAmounts: seq<real> := [10.66, 15.0, 11.08, 16.0]

  /** `dict(zip(tolls, sources))`: canonical amount to source name. */
  const TollCategory: map<real, TollSource> := map[
    0.0 := NoToll, 2.0 := Cbgh, 2.44 := Hh, 10.66 := Vn, 5.33 := MtaOther, 7.33 := CbghMtaOther,
    7.77 := HhMtaOther, 15.99 := VnMtaOther, 9.75 := Nypa, 15.08 := NypaMtaOther, 999.0 := OtherToll]

  /** The literal table is the zip of the two lists. */
  lemma TollCategoryIsZip()
    ensures |Tolls| == |Sources| == 11 && |TollConversions| == |Tolls| - 2
    ensures forall i :: 0 <= i < |Tolls| ==> Tolls[i] in TollCategory && TollCategory[Tolls[i]] == Sources[i]
    ensures forall a :: a in TollCategory <==> a in Tolls
  {
  }

  predicate NorthOfCbgh(t: Trip) {
    t.pickupLatitude > CbghNorthLatitude && t.dropoffLatitude > CbghNorthLatitude
  }

  predicate EastOfVn(t: Trip) {
    t.pickupLongitude > VnEastLongitude && t.dropoffLongitude > VnEastLongitude
  }

  /** The `for toll, conv in zip(tolls, conversions)` loop on one value: each pair in turn
      replaces a value found among the rate variants by the canonical amount. */
  function Convert(v: real, tolls: seq<real>, convs: seq<seq<real>>): (r: real)
    ensures r == v || r in tolls
    ensures v !in tolls && r in tolls ==> exists k :: 0 <= k < |convs| && v in convs[k]
    decreases |tolls|
  {
    if |tolls| == 0 || |convs| == 0 then v
    else Convert(if v in convs[0] then tolls[0] else v, tolls[1..], convs[1..])
  }

  /** The amounts the conversion loop walks through: every canonical amount except those
      of NoToll and OtherToll, paired with `TollConversions`. */
  const ConvertedTolls: seq<real> := Tolls[1..|Tolls| - 1]

  /** The charged amount after the two geographic overrides, which run on the raw amount
      one after the other. */
  function OverriddenAmount(t: Trip): (a: real)
    ensures a == t.tollsAmount || a == MtaOtherRate
    ensures a != t.tollsAmount <==>
      (t.tollsAmount in NorthOverrideAmounts && NorthOfCbgh(t)) || (t.tollsAmount in EastOverrideAmounts && EastOfVn(t))
  {
    var charged := t.tollsAmount;
    var north := if charged in NorthOverrideAmounts && NorthOfCbgh(t) then MtaOtherRate else charged;
    if north in EastOverrideAmounts && EastOfVn(t) then MtaOtherRate else north
  }

  /** The conversions, then the fallback of every amount not in `Tolls` to 999. */
  function Canonical(a: real): (c: real)
    ensures c in Tolls
  {
    var converted := Convert(a, ConvertedTolls, TollConversions);
    if converted in Tolls then converted else UnknownToll
  }

  /** The source of a trip's toll as the column steps compute it; the dictionary lookup
      always finds its key, so no row is left without a category. */
  function SourceOf(t: Trip): (s: TollSource)
    ensures s == OtherToll || KnownAmount(s, OverriddenAmount(t))
  {
    TollCategoryIsZip();
    CanonicalIsSourceByAmount(OverriddenAmount(t));
    TollCategory[Canonical(OverriddenAmount(t))]
  }

  /** `a` is an amount by which source `s` is recognised: its canonical amount or one of its other rates. */
  predicate KnownAmount(s: TollSource, a: real) {
    match s
    case NoToll => a == 0.0
    case Cbgh => a == 2.0 || a == 4.0 || a == 3.75 || a == 7.50 || a == 2.08 || a == 4.16 || a == 8.00
    case Hh => a == 2.44 || a == 4.88 || a == 5.0 || a == 10.0 || a == 2.54 || a == 5.08 || a == 5.50 || a == 11.0
    case Vn => a == 10.66 || a == 15.0 || a == 11.08 || a == 16.0
    case MtaOther => a == 5.33 || a == 5.54
    case CbghMtaOther => a == 7.33 || a == 7.62
    case HhMtaOther => a == 7.77 || a == 8.08
    case VnMtaOther => a == 15.99 || a == 16.62
    case Nypa => a == 9.75 || a == 11.75 || a == 10.50 || a == 12.50
    case NypaMtaOther => a == 15.08 || a == 17.08 || a == 16.04 || a == 18.04 || a == 15.29 || a == 17.29
    case OtherToll => a == 999.0
  }

  /** No amount is known to two sources, so exact-set lookup is unambiguous. */
  lemma KnownAmountsAreDisjoint(s: TollSource, u: TollSource, a: real)
    requires KnownAmount(s, a) && KnownAmount(u, a)
    ensures s == u
  {
    KnownAmountIdentifiesSource(s, a);
    KnownAmountIdentifiesSource(u, a);
  }

  /** Every known amount is a non-negative dollar amount, and only NoToll knows zero. */
  lemma KnownAmountsAreNonNegative(s: TollSource, a: real)
    requires KnownAmount(s, a)
    ensures a >= 0.0
    ensures a == 0.0 <==> s == NoToll
  {
  }

  /** Exact-set lookup of an amount, falling back to OtherToll. */
  function SourceByAmount(a: real): (s: TollSource)
    ensures s == OtherToll || KnownAmount(s, a)
  {
    if KnownAmount(NoToll, a) then NoToll
    else if KnownAmount(Cbgh, a) then Cbgh
    else if KnownAmount(Hh, a) then Hh
    else if KnownAmount(Vn, a) then Vn
    else if KnownAmount(MtaOther, a) then MtaOther
    else if KnownAmount(CbghMtaOther, a) then CbghMtaOther
    else if KnownAmount(HhMtaOther, a) then HhMtaOther
    else if KnownAmount(VnMtaOther, a) then VnMtaOther
    else if KnownAmount(Nypa, a) then Nypa
    else if KnownAmount(NypaMtaOther, a) then NypaMtaOther
    else OtherToll
  }

  /** Exact-set lookup finds the one source an amount is known to. */
  lemma KnownAmountIdentifiesSource(s: TollSource, a: real)
    requires KnownAmount(s, a)
    ensures SourceByAmount(a) == s
  {
    if s.NoToll? || s.Cbgh? || s.Hh? || s.Vn? || s.MtaOther? {
      IdentifiesSingleSource(s, a);
    } else {
      IdentifiesCombinedSource(s, a);
    }
  }

  lemma IdentifiesSingleSource(s: TollSource, a: real)
    requires s.NoToll? || s.Cbgh? || s.Hh? || s.Vn? || s.MtaOther?
    requires KnownAmount(s, a)
    ensures SourceByAmount(a) == s
  {
  }

  lemma IdentifiesCombinedSource(s: TollSource, a: real)
    requires !(s.NoToll? || s.Cbgh? || s.Hh? || s.Vn? || s.MtaOther?)
    requires KnownAmount(s, a)
    ensures SourceByAmount(a) == s
  {
    assert !KnownAmount(NoToll, a) && !KnownAmount(Cbgh, a) && !KnownAmount(Hh, a);
    assert !KnownAmount(Vn, a) && !KnownAmount(MtaOther, a);
  }

  /** The classification as an ordered rule list: the two geographic overrides first, then
      exact-set lookup of the charged amount. */
  function Classify(t: Trip): (s: TollSource)
    ensures t.tollsAmount in NorthOverrideAmounts && NorthOfCbgh(t) ==> s == MtaOther
    ensures t.tollsAmount in EastOverrideAmounts && EastOfVn(t) ==> s == MtaOther
  {
    var a := t.tollsAmount;
    if a in NorthOverrideAmounts && NorthOfCbgh(t) then MtaOther
    else if a in EastOverrideAmounts && EastOfVn(t) then MtaOther
    else SourceByAmount(a)
  }

  /** One pass of replacements, each pair in turn, sends an amount to the canonical amount
      of the first list that contains it, provided no canonical amount is itself a variant. */
  lemma {:induction false} ConvertFirstMatch(v: real, tolls: seq<real>, convs: seq<seq<real>>)
    requires |tolls| == |convs|
    requires forall i, j :: 0 <= i < |tolls| && 0 <= j < |convs| ==> tolls[i] !in convs[j]
    ensures forall k :: 0 <= k < |convs| && v in convs[k] && (forall j :: 0 <= j < k ==> v !in convs[j]) ==>
      Convert(v, tolls, convs) == tolls[k]
    ensures (forall k :: 0 <= k < |convs| ==> v !in convs[k]) ==> Convert(v, tolls, convs) == v
    decreases |tolls|
  {
    if |tolls| > 0 {
      var w := if v in convs[0] then tolls[0] else v;
      assert forall i :: 0 <= i < |tolls| - 1 ==> tolls[1..][i] == tolls[i + 1] && convs[1..][i] == convs[i + 1];
      ConvertFirstMatch(w, tolls[1..], convs[1..]);
      if v in convs[0] {
        assert forall k :: 0 <= k < |convs| - 1 ==> w !in convs[1..][k];
      } else {
        forall k | 1 <= k < |convs| && v in convs[k] && (forall j :: 0 <= j < k ==> v !in convs[j])
          ensures Convert(v, tolls, convs) == tolls[k]
        {
          assert v in convs[1..][k - 1];
          assert forall j :: 0 <= j < k - 1 ==> v !in convs[1..][j];
        }
      }
    }
  }

  /** No canonical amount is listed among the rate variants, so a converted amount is
      never converted again by a later pair. */
  lemma CanonicalAmountsAreNotVariants()
    ensures |ConvertedTolls| == |TollConversions|
    ensures forall i, j :: 0 <= i < |ConvertedTolls| && 0 <= j < |TollConversions| ==>
      ConvertedTolls[i] !in TollConversions[j]
  {
    assert ConvertedTolls == [2.0, 2.44, 10.66, 5.33, 7.33, 7.77, 15.99, 9.75, 15.08];
  }

  /** An amount first listed among the variants of pair `k` converts to its canonical amount. */
  lemma CanonicalOfVariant(a: real, k: int)
    requires 0 <= k < |TollConversions| && a in TollConversions[k]
    requires forall j :: 0 <= j < k ==> a !in TollConversions[j]
    ensures Canonical(a) == ConvertedTolls[k]
  {
    CanonicalAmountsAreNotVariants();
    ConvertFirstMatch(a, ConvertedTolls, TollConversions);
  }

  /** An amount listed among no variants is kept if canonical, and becomes 999 otherwise. */
  lemma CanonicalOfOther(a: real)
    requires forall j :: 0 <= j < |TollConversions| ==> a !in TollConversions[j]
    ensures Canonical(a) == if a in Tolls then a else UnknownToll
  {
    CanonicalAmountsAreNotVariants();
    ConvertFirstMatch(a, ConvertedTolls, TollConversions);
  }

  // The nine lemmas below are one per conversion list rather than one over the list
  // index: with the index left symbolic, the solver has to unfold all nine lists and the
  // whole `SourceByAmount` chain at once, which exceeds the resource budget.

  /** Lookup agreement for the other rates of CBGH. */
  lemma VariantOfCbgh(a: real)
    requires a in TollConversions[0]
    ensures TollCategory[Canonical(a)] == SourceByAmount(a)
  {
    CanonicalOfVariant(a, 0);
  }

  /** Lookup agreement for the other rates of HH. */
  lemma VariantOfHh(a: real)
    requires a in TollConversions[1]
    ensures TollCategory[Canonical(a)] == SourceByAmount(a)
  {
    CanonicalOfVariant(a, 1);
  }

  /** Lookup agreement for the other rates of VN. */
  lemma VariantOfVn(a: real)
    requires a in TollConversions[2]
    ensures TollCategory[Canonical(a)] == SourceByAmount(a)
  {
    CanonicalOfVariant(a, 2);
  }

  /** Lookup agreement for the other rates of MTA_Other. */
  lemma VariantOfMtaOther(a: real)
    requires a in TollConversions[3]
    ensures TollCategory[Canonical(a)] == SourceByAmount(a)
  {
    CanonicalOfVariant(a, 3);
  }

  /** Lookup agreement for the other rates of CBGH_MTA_Other. */
  lemma VariantOfCbghMtaOther(a: real)
    requires a in TollConversions[4]
    ensures TollCategory[Canonical(a)] == SourceByAmount(a)
  {
    CanonicalOfVariant(a, 4);
  }

  /** Lookup agreement for the other rates of HH_MTA_Other. */
  lemma VariantOfHhMtaOther(a: real)
    requires a in TollConversions[5]
    ensures TollCategory[Canonical(a)] == SourceByAmount(a)
  {
    CanonicalOfVariant(a, 5);
  }

  /** Lookup agreement for the other rates of VN_MTA_Other. */
  lemma VariantOfVnMtaOther(a: real)
    requires a in TollConversions[6]
    ensures TollCategory[Canonical(a)] == SourceByAmount(a)
  {
    CanonicalOfVariant(a, 6);
  }

  /** Lookup agreement for the other rates of NYPA. */
  lemma VariantOfNypa(a: real)
    requires a in TollConversions[7]
    ensures TollCategory[Canonical(a)] == SourceByAmount(a)
  {
    CanonicalOfVariant(a, 7);
  }

  /** Lookup agreement for the other rates of NYPA_MTA_Other. */
  lemma VariantOfNypaMtaOther(a: real)
    requires a in TollConversions[8]
    ensures TollCategory[Canonical(a)] == SourceByAmount(a)
  {
    CanonicalOfVariant(a, 8);
  }

  /** Lookup agreement for amounts that are no source's variant. */
  lemma NoVariant(a: real)
    requires forall k :: 0 <= k < 9 ==> a !in TollConversions[k]
    ensures TollCategory[Canonical(a)] == SourceByAmount(a)
  {
    assert a !in TollConversions[0] && a !in TollConversions[1] && a !in TollConversions[2];
    assert a !in TollConversions[3] && a !in TollConversions[4] && a !in TollConversions[5];
    assert a !in TollConversions[6] && a !in TollConversions[7] && a !in TollConversions[8];
    CanonicalOfOther(a);
    TollCategoryIsZip();
  }

  /** The conversions and the fallback agree with exact-set lookup on every amount. */
  lemma CanonicalIsSourceByAmount(a: real)
    ensures TollCategory[Canonical(a)] == SourceByAmount(a)
  {
    var cs := TollConversions;
    if a in cs[0] {
      VariantOfCbgh(a);
    } else if a in cs[1] {
      VariantOfHh(a);
    } else if a in cs[2] {
      VariantOfVn(a);
    } else if a in cs[3] {
      VariantOfMtaOther(a);
    } else if a in cs[4] {
      VariantOfCbghMtaOther(a);
    } else if a in cs[5] {
      VariantOfHhMtaOther(a);
    } else if a in cs[6] {
      VariantOfVnMtaOther(a);
    } else if a in cs[7] {
      VariantOfNypa(a);
    } else if a in cs[8] {
      VariantOfNypaMtaOther(a);
    } else {
      NoVariant(a);
    }
  }

  /** The column steps and the ordered rule list agree on every trip. */
  lemma SourceOfIsClassify(t: Trip)
    ensures SourceOf(t) == Classify(t)
  {
    CanonicalIsSourceByAmount(OverriddenAmount(t));
  }

  /** The north override of `add_toll_source`: a $7.50 or $8 toll is MTA_Other when both ends lie north of the
      bridges, and CBGH otherwise. */
  lemma NorthOverride(t: Trip)
    requires t.tollsAmount == 7.50 || t.tollsAmount == 8.0
    ensures SourceOf(t) == (if NorthOfCbgh(t) then MtaOther else Cbgh)
  {
    SourceOfIsClassify(t);
  }

  /** The east override of `add_toll_source`: a $10.66, $15, $11.08 or $16 toll is MTA_Other when both ends lie east
      of the bridge, and VN otherwise. */
  lemma EastOverride(t: Trip)
    requires t.tollsAmount in {10.66, 15.0, 11.08, 16.0}
    ensures SourceOf(t) == (if EastOfVn(t) then MtaOther else Vn)
  {
    SourceOfIsClassify(t);
  }

  /** An amount no source is known to charge falls back to OtherToll. */
  lemma UnknownAmountIsOtherToll(t: Trip)
    requires forall s: TollSource :: !KnownAmount(s, t.tollsAmount)
    ensures SourceOf(t) == OtherToll
  {
    SourceOfIsClassify(t);
    assert !KnownAmount(NoToll, t.tollsAmount) && !KnownAmount(Cbgh, t.tollsAmount);
    assert !KnownAmount(Vn, t.tollsAmount);
  }

  /** Outside the overrides a trip is classified by exact set membership: its amount is one
      the chosen source is known to charge, or no source charges it and it is OtherToll. */
  lemma ClassifiedByExactAmount(t: Trip)
    requires !(t.tollsAmount in NorthOverrideAmounts && NorthOfCbgh(t))
    requires !(t.tollsAmount in EastOverrideAmounts && EastOfVn(t))
    ensures SourceOf(t) == OtherToll || KnownAmount(SourceOf(t), t.tollsAmount)
    ensures forall s: TollSource :: KnownAmount(s, t.tollsAmount) ==> SourceOf(t) == s
  {
    SourceOfIsClassify(t);
    forall s: TollSource | KnownAmount(s, t.tollsAmount) ensures SourceOf(t) == s {
      if Classify(t) != OtherToll {
        KnownAmountsAreDisjoint(s, Classify(t), t.tollsAmount);
      }
    }
  }

  // ---- add_toll_source ----

  const SourceNames: set<string> := set s: TollSource :: s.Name()

  /** The row with its `toll_source` column set and every other column unchanged. */
  function WithTollSource(r: Row): (u: Row)
    ensures u.(tollSource := r.tollSource) == r
    ensures u.tollSource == Some(Classify(r.trip).Name())
  {
    SourceOfIsClassify(r.trip);
    r.(tollSource := Some(SourceOf(r.trip).Name()))
  }

  /** `add_toll_source`: every row gets one of the eleven source names as its category;
      the charged amount and all other columns are untouched, no row is added or dropped. */
  function AddTollSource(f: Frame<Row>): (g: Frame<Row>)
    ensures |g| == |f| && Contiguous(g)
    ensures forall i :: 0 <= i < |f| ==> g[i].row.(tollSource := f[i].row.tollSource) == f[i].row
    ensures forall i :: 0 <= i < |f| ==> g[i].row.tollSource == Some(Classify(f[i].row.trip).Name())
    ensures forall i :: 0 <= i < |g| ==> g[i].row.tollSource.Some? && g[i].row.tollSource.value in SourceNames
  {
    ResetIndex(Assign(f, WithTollSource))
  }

  // ---- add_toll_paid ----

  /** `toll_paid`: "Toll" when a positive toll was charged, "NoToll" otherwise. */
  function PaidLabel(t: Trip): string {
    if t.tollsAmount > 0.0 then "Toll" else "NoToll"
  }

  function WithTollPaid(r: Row): (u: Row)
    ensures u.(tollPaid := r.tollPaid) == r
  {
    r.(tollPaid := Some(PaidLabel(r.trip)))
  }

  /** `add_toll_paid`: every row is flagged, nothing else changes. */
  function AddTollPaid(f: Frame<Row>): (g: Frame<Row>)
    ensures |g| == |f| && Contiguous(g)
    ensures forall i :: 0 <= i < |f| ==> g[i].row.(tollPaid := f[i].row.tollPaid) == f[i].row
    ensures forall i :: 0 <= i < |f| ==>
      (g[i].row.tollPaid == Some("Toll") <==> f[i].row.trip.tollsAmount > 0.0)
    ensures forall i :: 0 <= i < |f| ==>
      (g[i].row.tollPaid == Some("NoToll") <==> f[i].row.trip.tollsAmount <= 0.0)
  {
    ResetIndex(Assign(f, WithTollPaid))
  }

  /** For a non-negative charged toll, the two toll columns agree: the source is NoToll
      exactly when no toll was paid. A negative toll is unpaid yet OtherToll. */
  lemma PaidAgreesWithSource(t: Trip)
    ensures t.tollsAmount >= 0.0 ==> (SourceOf(t) == NoToll <==> PaidLabel(t) == "NoToll")
    ensures t.tollsAmount < 0.0 ==> SourceOf(t) == OtherToll && PaidLabel(t) == "NoToll"
  {
    SourceOfIsClassify(t);
    var a := t.tollsAmount;
    var s := SourceByAmount(a);
    assert Classify(t) == s || (Classify(t) == MtaOther && a > 0.0);
    if s != OtherToll {
      KnownAmountsAreNonNegative(s, a);
    } else {
      assert a != 0.0;
    }
  }

  // ---- filter_toll ----

  /** The six broad classes kept after `filter_toll`. */
  datatype TollClass = CbghClass | HhClass | VnClass | NypaClass | MtaClass | OtherClass {
    function Name(): string {
      match this
      case CbghClass => "CBGH"
      case HhClass => "HH"
      case VnClass => "VN"
      case NypaClass => "NYPA"
      case MtaClass => "MTA"
      case OtherClass => "Other"
    }
  }

  const ClassNames: set<string> := set c: TollClass :: c.Name()

  /** The class each toll-charging source belongs to. */
  function Collapse(s: TollSource): TollClass
    requires s != NoToll
  {
    match s
    case Cbgh | CbghMtaOther => CbghClass
    case Hh | HhMtaOther => HhClass
    case Vn | VnMtaOther => VnClass
    case Nypa | NypaMtaOther => NypaClass
    case MtaOther => MtaClass
    case OtherToll => OtherClass
  }

  /** `df.loc[df.toll_source.isin(from), 'toll_source'] = to` on one value. */
  function Rewrite(name: string, olds: set<string>, new_: string): string {
    if name in olds then new_ else name
  }

  /** The four merges and the two renames of `filter_toll`, in order: every source name
      but NoToll ends as a class name, and any other name is left alone. */
  function Merge(name: string): (m: string)
    ensures name in SourceNames && name != "NoToll" ==> m in ClassNames
    ensures m != name ==> m in ClassNames
  {
    var l1 := Rewrite(name, {"HH", "HH_MTA_Other"}, "HH");
    var l2 := Rewrite(l1, {"VN", "VN_MTA_Other"}, "VN");
    var l3 := Rewrite(l2, {"CBGH", "CBGH_MTA_Other"}, "CBGH");
    var l4 := Rewrite(l3, {"NYPA", "NYPA_MTA_Other"}, "NYPA");
    var l5 := Rewrite(l4, {"MTA_Other"}, "MTA");
    Rewrite(l5, {"OtherToll"}, "Other")
  }

  /** The rewrites on names agree with the class of each source. */
  lemma MergeIsCollapse(s: TollSource)
    requires s != NoToll
    ensures Merge(s.Name()) == Collapse(s).Name()
  {
  }

  /** Merging twice is merging once: class names are left as they are. */
  lemma MergeIsIdempotent(name: string)
    ensures Merge(Merge(name)) == Merge(name)
    ensures name in ClassNames ==> Merge(name) == name
  {
    assert "CBGH" == CbghClass.Name() && "HH" == HhClass.Name() && "VN" == VnClass.Name();
    assert "NYPA" == NypaClass.Name() && "MTA" == MtaClass.Name() && "Other" == OtherClass.Name();
  }

  /** The trip charged a toll (its category is not NoToll). */
  predicate Tolled(r: Row) {
    r.tollSource != Some("NoToll")
  }

  /** The row with its category merged into its class, everything else unchanged. */
  function WithMergedSource(r: Row): (u: Row)
    ensures u.(tollSource := r.tollSource) == r
    ensures r.tollSource.Some? ==> u.tollSource == Some(Merge(r.tollSource.value))
  {
    match r.tollSource
    case None => r
    case Some(name) => r.(tollSource := Some(Merge(name)))
  }

  /** `filter_toll`: drops the rows whose category is NoToll, merges the remaining
      categories into their classes, keeps everything else, in order, reindexed. */
  function FilterToll(f: Frame<Row>): (g: Frame<Row>)
    requires forall i :: 0 <= i < |f| ==> f[i].row.tollSource.Some?
    ensures Contiguous(g)
    ensures SubseqOf(Rows(g), Project(Rows(f), WithMergedSource))
    ensures |g| == Count(Rows(f), Tolled)
    ensures forall i :: 0 <= i < |f| && Tolled(f[i].row) ==> WithMergedSource(f[i].row) in Rows(g)
    ensures forall j :: 0 <= j < |g| ==> g[j].row.tollSource.Some? && g[j].row.tollSource.value != "NoToll"
  {
    var tolled := Query(f, Tolled);
    var merged := Assign(tolled, WithMergedSource);
    var g := ResetIndex(merged);
    QueryCount(f, Tolled);
    SubseqRows(tolled, f);
    SubseqProject(Rows(tolled), Rows(f), WithMergedSource);
    assert Project(Rows(tolled), WithMergedSource) == Rows(merged);
    forall i | 0 <= i < |f| && Tolled(f[i].row) ensures WithMergedSource(f[i].row) in Rows(g) {
      assert f[i] in f;
      var k :| 0 <= k < |tolled| && tolled[k] == f[i];
      assert Rows(g)[k] == Rows(merged)[k];
    }
    forall j | 0 <= j < |g| ensures g[j].row.tollSource.Some? && g[j].row.tollSource.value != "NoToll" {
      assert g[j].row == merged[j].row;
      assert tolled[j] in tolled;
    }
    g
  }

  /** Every row `filter_toll` returns is the merged form of some tolled input row. */
  lemma FilteredRowOrigin(f: Frame<Row>, j: int)
    requires forall i :: 0 <= i < |f| ==> f[i].row.tollSource.Some?
    requires 0 <= j < |FilterToll(f)|
    ensures exists k :: 0 <= k < |f| && Tolled(f[k].row) && FilterToll(f)[j].row == WithMergedSource(f[k].row)
  {
    var tolled := Query(f, Tolled);
    assert FilterToll(f)[j].row == WithMergedSource(tolled[j].row);
    assert tolled[j] in tolled;
  }

  /** After `add_toll_source`, `filter_toll` leaves only the six class names. */
  lemma FilterTollLeavesClassNames(f: Frame<Row>)
    ensures var g := FilterToll(AddTollSource(f));
      forall j :: 0 <= j < |g| ==> g[j].row.tollSource.value in ClassNames
  {
    var s := AddTollSource(f);
    var g := FilterToll(s);
    forall j | 0 <= j < |g| ensures g[j].row.tollSource.value in ClassNames {
      FilteredRowOrigin(s, j);
      var k :| 0 <= k < |s| && Tolled(s[k].row) && g[j].row == WithMergedSource(s[k].row);
      var src := Classify(f[k].row.trip);
      assert s[k].row.tollSource == Some(src.Name());
      assert src != NoToll;
      MergeIsCollapse(src);
      assert Collapse(src).Name() in ClassNames;
    }
  }

  /** After `add_toll_source`, `filter_toll` keeps every tolled trip, carrying the class
      of its source and otherwise unchanged. */
  lemma FilterTollKeepsTolledTrips(f: Frame<Row>)
    ensures var g := FilterToll(AddTollSource(f));
      forall i :: 0 <= i < |f| && Classify(f[i].row.trip) != NoToll ==>
        f[i].row.(tollSource := Some(Collapse(Classify(f[i].row.trip)).Name())) in Rows(g)
  {
    var s := AddTollSource(f);
    var g := FilterToll(s);
    forall i | 0 <= i < |f| && Classify(f[i].row.trip) != NoToll
      ensures f[i].row.(tollSource := Some(Collapse(Classify(f[i].row.trip)).Name())) in Rows(g)
    {
      var src := Classify(f[i].row.trip);
      MergeIsCollapse(src);
      assert Tolled(s[i].row);
      assert WithMergedSource(s[i].row) == f[i].row.(tollSource := Some(Collapse(src).Name()));
    }
  }

  /** The trip's toll is classified as coming from some source. */
  predicate ChargesToll(r: Row) {
    Classify(r.trip) != NoToll
  }

  /** After `add_toll_source`, `filter_toll` keeps one row for every trip whose toll is
      classified, repeated trips included. */
  lemma FilterTollCountsTolledTrips(f: Frame<Row>)
    ensures |FilterToll(AddTollSource(f))| == Count(Rows(f), ChargesToll)
  {
    var s := AddTollSource(f);
    forall i | 0 <= i < |f| ensures Tolled(Rows(s)[i]) <==> ChargesToll(Rows(f)[i]) {
      var src := Classify(f[i].row.trip);
      assert s[i].row.tollSource == Some(src.Name());
      assert src.Name() == "NoToll" <==> src == NoToll;
    }
    CountPointwise(Rows(s), Tolled, Rows(f), ChargesToll);
  }

  /** Running `filter_toll` on its own output changes nothing. */
  lemma FilterTollIsIdempotent(f: Frame<Row>)
    requires forall i :: 0 <= i < |f| ==> f[i].row.tollSource.Some?
    ensures FilterToll(FilterToll(f)) == FilterToll(f)
  {
    var g := FilterToll(f);
    QueryKeepsAll(g, Tolled);
    forall j | 0 <= j < |g| ensures WithMergedSource(g[j].row) == g[j].row {
      FilteredRowOrigin(f, j);
      var k :| 0 <= k < |f| && Tolled(f[k].row) && g[j].row == WithMergedSource(f[k].row);
      MergeIsIdempotent(f[k].row.tollSource.value);
    }
    var m := Assign(g, WithMergedSource);
    assert forall j :: 0 <= j < |g| ==> m[j] == g[j];
    assert m == g;
    ResetIndexOfContiguous(g);
  }
}

/** The fixed code-to-label tables and the mapping of a frame's category columns
    through them. A code missing from its table is an error, never a default. */
module Categories {
  import opened Results
  import opened Frames
  import opened Trips

  const PaymentTypes: map<string, string> := map[
    "1" := "Credit card",
    "2" := "Cash",
    "3" := "No charge",
    "4" := "Dispute",
    "5" := "Unknown",
    "6" := "Voided trip"]

  /** Rate code "99" maps to itself; the cleaning stage then rejects it. */
  const RateCodes: map<string, string> := map[
    "1" := "Standard rate",
    "2" := "JFK",
    "3" := "Newark",
    "4" := "Nassau or Westchester",
    "5" := "Negotiated fare",
    "6" := "Group ride",
    "99" := "99"]

  const Vendors: map<string, string> := map[
    "1" := "Creative Mobile Technologies, LLC",
    "2" := "VeriFone Inc."]

  /** The three coded columns, in the order they are mapped. */
  datatype CodeColumn = PaymentType | RateCode | Vendor {

    function Name(): string {
      match this
      case PaymentType => "payment_type"
      case RateCode => "RateCodeID"
      case Vendor => "VendorID"
    }

    function Table(): map<string, string> {
      match this
      case PaymentType => PaymentTypes
      case RateCode => RateCodes
      case Vendor => Vendors
    }

    function Get(t: Trip): string {
      match this
      case PaymentType => t.paymentType
      case RateCode => t.rateCodeId
      case Vendor => t.vendorId
    }

    /** The trip with this column set to `v` and every other column unchanged. */
    function Put(t: Trip, v: string): (u: Trip)
      ensures Get(u) == v
    {
      match this
      case PaymentType => t.(paymentType := v)
      case RateCode => t.(rateCodeId := v)
      case Vendor => t.(vendorId := v)
    }
  }

  predicate Known(c: CodeColumn, t: Trip) {
    c.Get(t) in c.Table()
  }

  /** The trip with column `c` replaced by the label of its code. */
  function Relabel(c: CodeColumn, t: Trip): Trip
    requires Known(c, t)
  {
    c.Put(t, c.Table()[c.Get(t)])
  }

  predicate AllKnown(f: Frame<Trip>, c: CodeColumn) {
    forall i :: 0 <= i < |f| ==> Known(c, f[i].row)
  }

  /** The position of the first row whose code is missing from the table. */
  function FirstUnknown(f: Frame<Trip>, c: CodeColumn): (k: int)
    requires !AllKnown(f, c)
    ensures 0 <= k < |f| && !Known(c, f[k].row)
    ensures forall i :: 0 <= i < k ==> Known(c, f[i].row)
  {
    if !Known(c, f[0].row) then 0
    else
      var k := FirstUnknown(f[1..], c) + 1;
      assert forall i :: 1 <= i < |f| ==> f[1..][i - 1] == f[i];
      k
  }

  /** `df[c].apply(lambda x: table[x])`: every code replaced by its label, row by row;
      the first missing code raises and the whole mapping fails. */
  function MapColumn(f: Frame<Trip>, c: CodeColumn): (r: Result<Frame<Trip>>)
    ensures r.Ok? <==> AllKnown(f, c)
    ensures r.Ok? ==> |r.value| == |f|
    ensures r.Ok? ==> forall i :: 0 <= i < |f| ==> r.value[i] == Labeled(f[i].index, Relabel(c, f[i].row))
    ensures r.Err? ==> r.error == UnknownCategoryCode(c.Name(), c.Get(f[FirstUnknown(f, c)].row))
  {
    if |f| == 0 then Ok([])
    else if !Known(c, f[0].row) then Err(UnknownCategoryCode(c.Name(), c.Get(f[0].row)))
    else
      var rest := MapColumn(f[1..], c);
      KnownOnTail(f, c);
      if rest.Err? then Err(rest.error)
      else Ok([Labeled(f[0].index, Relabel(c, f[0].row))] + rest.value)
  }

  /** Past a known first row, the codes of a frame are known exactly when those of its
      tail are, and its first unknown code is the tail's. */
  lemma KnownOnTail(f: Frame<Trip>, c: CodeColumn)
    requires |f| > 0 && Known(c, f[0].row)
    ensures AllKnown(f, c) <==> AllKnown(f[1..], c)
    ensures !AllKnown(f, c) ==> f[FirstUnknown(f, c)] == f[1..][FirstUnknown(f[1..], c)]
  {
    assert forall i :: 1 <= i < |f| ==> f[1..][i - 1] == f[i];
  }

  /** The three `apply` lines of `basic_preprocessing`: payment type, then rate code,
      then vendor. A failure is always a missing code; a success keeps every row and label. */
  function MapCategories(f: Frame<Trip>): (r: Result<Frame<Trip>>)
    ensures r.Err? ==> r.error.UnknownCategoryCode?
    ensures r.Ok? ==> |r.value| == |f| && forall i :: 0 <= i < |f| ==> r.value[i].index == f[i].index
  {
    var paid :- MapColumn(f, PaymentType);
    var rated :- MapColumn(paid, RateCode);
    MapColumn(rated, Vendor)
  }

  predicate AllCodesKnown(t: Trip) {
    Known(PaymentType, t) && Known(RateCode, t) && Known(Vendor, t)
  }

  /** All three labels of a trip whose codes are all known; nothing else changes. */
  function Labelled(t: Trip): (u: Trip)
    requires AllCodesKnown(t)
    ensures u.paymentType == PaymentTypes[t.paymentType]
    ensures u.rateCodeId == RateCodes[t.rateCodeId]
    ensures u.vendorId == Vendors[t.vendorId]
    ensures u.(paymentType := t.paymentType, rateCodeId := t.rateCodeId, vendorId := t.vendorId) == t
  {
    Relabel(Vendor, Relabel(RateCode, Relabel(PaymentType, t)))
  }

  /** Mapping succeeds exactly when every code of every row is in its table, and then
      replaces the three codes of each row by their labels and changes nothing else. */
  lemma MapCategoriesSucceeds(f: Frame<Trip>)
    ensures MapCategories(f).Ok? <==> forall i :: 0 <= i < |f| ==> AllCodesKnown(f[i].row)
    ensures MapCategories(f).Ok? ==>
      var g := MapCategories(f).value;
      |g| == |f| && forall i :: 0 <= i < |f| ==> g[i] == Labeled(f[i].index, Labelled(f[i].row))
  {
    var paid := MapColumn(f, PaymentType);
    if paid.Ok? {
      var rated := MapColumn(paid.value, RateCode);
      assert forall i :: 0 <= i < |f| ==> Known(RateCode, paid.value[i].row) == Known(RateCode, f[i].row);
      if rated.Ok? {
        assert forall i :: 0 <= i < |f| ==> Known(Vendor, rated.value[i].row) == Known(Vendor, f[i].row);
      }
    }
  }

  /** On failure the error names the first column, in mapping order, holding an unknown
      code, and the first such code in that column. */
  lemma MapCategoriesFailure(f: Frame<Trip>)
    ensures !AllKnown(f, PaymentType) ==>
      MapCategories(f) == Err(UnknownCategoryCode("payment_type", f[FirstUnknown(f, PaymentType)].row.paymentType))
    ensures AllKnown(f, PaymentType) && !AllKnown(f, RateCode) ==>
      MapCategories(f) == Err(UnknownCategoryCode("RateCodeID", f[FirstUnknown(f, RateCode)].row.rateCodeId))
    ensures AllKnown(f, PaymentType) && AllKnown(f, RateCode) && !AllKnown(f, Vendor) ==>
      MapCategories(f) == Err(UnknownCategoryCode("VendorID", f[FirstUnknown(f, Vendor)].row.vendorId))
  {
    var paid := MapColumn(f, PaymentType);
    if paid.Ok? {
      var p := paid.value;
      assert forall i :: 0 <= i < |f| ==> p[i].row.rateCodeId == f[i].row.rateCodeId;
      assert forall i :: 0 <= i < |f| ==> p[i].row.vendorId == f[i].row.vendorId;
      if !AllKnown(f, RateCode) {
        FirstUnknownAgrees(p, f, RateCode);
      } else {
        var rated := MapColumn(p, RateCode);
        var q := rated.value;
        assert forall i :: 0 <= i < |f| ==> q[i].row.vendorId == f[i].row.vendorId;
        if !AllKnown(f, Vendor) {
          FirstUnknownAgrees(q, f, Vendor);
        }
      }
    }
  }

  /** Two frames with the same codes in column `c` have their first unknown code at the same place. */
  lemma {:induction false} FirstUnknownAgrees(f: Frame<Trip>, g: Frame<Trip>, c: CodeColumn)
    requires |f| == |g|
    requires forall i :: 0 <= i < |f| ==> c.Get(f[i].row) == c.Get(g[i].row)
    requires !AllKnown(g, c)
    ensures !AllKnown(f, c)
    ensures FirstUnknown(f, c) == FirstUnknown(g, c)
    decreases |f|
  {
    assert !Known(c, g[FirstUnknown(g, c)].row);
    if Known(c, f[0].row) {
      assert forall i :: 1 <= i < |f| ==> f[1..][i - 1] == f[i] && g[1..][i - 1] == g[i];
      FirstUnknownAgrees(f[1..], g[1..], c);
    }
  }

  /** Labels are not codes: mapping the output of a successful mapping again fails on its
      first row, so the category step cannot be re-run on its own result. */
  lemma LabelsAreNotCodes(f: Frame<Trip>)
    requires MapCategories(f).Ok? && |MapCategories(f).value| > 0
    ensures MapCategories(MapCategories(f).value).Err?
  {
    MapCategoriesSucceeds(f);
    var g := MapCategories(f).value;
    assert g[0].row.paymentType == PaymentTypes[f[0].row.paymentType];
    assert !Known(PaymentType, g[0].row);
  }
}

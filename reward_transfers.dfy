/**
 * The transfer aggregator: merges the invite ledger (`reward_invites`) and the
 * center ledger (`reward_centers`) into one payable row per `ref_code`, with
 * the three category sums, their total, and the first non-empty name and
 * wallet seen (invites before centers). The rows are inserted in one batch,
 * pending and dated with the run day.
 */
module RewardTransfers {
  import opened Records
  import opened Storage
  import opened Grouping

  const AggMemo: string := "초대코드 기준 누적 합산"

  /** A `reward_invites` row as the aggregator selects it; a null amount is None. */
  datatype InviteEntry = InviteEntry(refCode: string, name: Option<string>, wallet: Option<string>, amount: Option<real>)

  /** A `reward_centers` row as the aggregator selects it; null amounts are None. */
  datatype CenterEntry = CenterEntry(
    refCode: string, name: Option<string>, wallet: Option<string>, amountFee: Option<real>, amountTuition: Option<real>)

  // ---------------------------------------------------------------------------
  // Both ledgers as one stream of credits

  /** What one ledger row adds to its recipient: a name and wallet candidate, and three amounts. */
  datatype Credit = Credit(
    refCode: string, name: Option<string>, wallet: Option<string>, invite: real, centerFee: real, centerTuition: real)

  function InviteCredit(i: InviteEntry): Credit {
    Credit(i.refCode, i.name, i.wallet, NumOrZero(i.amount), 0.0, 0.0)
  }

  function CenterCredit(c: CenterEntry): Credit {
    Credit(c.refCode, c.name, c.wallet, 0.0, NumOrZero(c.amountFee), NumOrZero(c.amountTuition))
  }

  function InviteCredits(invites: seq<InviteEntry>): (cs: seq<Credit>)
    ensures |cs| == |invites| && forall i :: 0 <= i < |invites| ==> cs[i] == InviteCredit(invites[i])
  {
    seq(|invites|, i requires 0 <= i < |invites| => InviteCredit(invites[i]))
  }

  function CenterCredits(centers: seq<CenterEntry>): (cs: seq<Credit>)
    ensures |cs| == |centers| && forall i :: 0 <= i < |centers| ==> cs[i] == CenterCredit(centers[i])
  {
    seq(|centers|, i requires 0 <= i < |centers| => CenterCredit(centers[i]))
  }

  /** The credits in the order the aggregator visits them: all invites, then all center rewards. */
  function Credits(invites: seq<InviteEntry>, centers: seq<CenterEntry>): seq<Credit> {
    InviteCredits(invites) + CenterCredits(centers)
  }

  function CreditRef(c: Credit): string { c.refCode }

  function CreditInvite(c: Credit): real { c.invite }

  function CreditFee(c: Credit): real { c.centerFee }

  function CreditTuition(c: Credit): real { c.centerTuition }

  predicate HasName(c: Credit) { Present(c.name) }

  predicate HasWallet(c: Credit) { Present(c.wallet) }

  // ---------------------------------------------------------------------------
  // The `agg` map and `upsertAgg`

  /** One value of `agg`. */
  datatype Agg = Agg(
    refCode: string, name: Option<string>, wallet: Option<string>,
    amountInvite: real, amountCenterFee: real, amountCenterTuition: real)

  /** `agg`: its keys in insertion order, and its values. */
  datatype AggMap = AggMap(order: seq<string>, values: map<string, Agg>)

  /**
   * `upsertAgg(ref, name, wallet)`: makes sure `ref` has a value (zero sums,
   * no name or wallet when new) and fills its name and wallet from the given
   * ones only where they are still empty.
   */
  function UpsertAgg(m: AggMap, ref: string, name: Option<string>, wallet: Option<string>): AggMap {
    var cur := if ref in m.values then m.values[ref] else Agg(ref, None, None, 0.0, 0.0, 0.0);
    var cur := cur.(name := if !Present(cur.name) && Present(name) then name else cur.name);
    var cur := cur.(wallet := if !Present(cur.wallet) && Present(wallet) then wallet else cur.wallet);
    AggMap(if ref in m.values then m.order else m.order + [ref], m.values[ref := cur])
  }

  /**
   * What an upsert changes: `ref` gets a value, new refs are appended to the
   * order, other values stay as they are, the sums are untouched (zero for a
   * new ref), and a present name or wallet is never overwritten while an
   * empty one is filled from a present argument.
   */
  lemma UpsertAggSpec(m: AggMap, ref: string, name: Option<string>, wallet: Option<string>)
    ensures var m' := UpsertAgg(m, ref, name, wallet);
      && ref in m'.values
      && m'.order == (if ref in m.values then m.order else m.order + [ref])
      && (forall r :: r in m'.values <==> r in m.values || r == ref)
      && (forall r :: r in m.values && r != ref ==> m'.values[r] == m.values[r])
      && (ref in m.values ==>
            && m'.values[ref].refCode == m.values[ref].refCode
            && m'.values[ref].amountInvite == m.values[ref].amountInvite
            && m'.values[ref].amountCenterFee == m.values[ref].amountCenterFee
            && m'.values[ref].amountCenterTuition == m.values[ref].amountCenterTuition)
      && (ref !in m.values ==>
            m'.values[ref] == Agg(ref, if Present(name) then name else None, if Present(wallet) then wallet else None, 0.0, 0.0, 0.0))
      && (ref in m.values && Present(m.values[ref].name) ==> m'.values[ref].name == m.values[ref].name)
      && (ref in m.values && Present(m.values[ref].wallet) ==> m'.values[ref].wallet == m.values[ref].wallet)
      && (ref in m.values && !Present(m.values[ref].name) && Present(name) ==> m'.values[ref].name == name)
      && (ref in m.values && !Present(m.values[ref].wallet) && Present(wallet) ==> m'.values[ref].wallet == wallet)
  {
  }

  /** `agg` after one credit: the upsert, then the credit's amounts added to the value. */
  function Absorb(m: AggMap, c: Credit): AggMap {
    var m' := UpsertAgg(m, c.refCode, c.name, c.wallet);
    var cur := m'.values[c.refCode];
    AggMap(m'.order, m'.values[c.refCode := cur.(
      amountInvite := cur.amountInvite + c.invite,
      amountCenterFee := cur.amountCenterFee + c.centerFee,
      amountCenterTuition := cur.amountCenterTuition + c.centerTuition)])
  }

  /** `agg` after credits `cs`. */
  function AggFold(cs: seq<Credit>): AggMap {
    if cs == [] then AggMap([], map[]) else Absorb(AggFold(cs[..|cs| - 1]), cs[|cs| - 1])
  }

  lemma AggFoldSnoc(cs: seq<Credit>, c: Credit)
    ensures AggFold(cs + [c]) == Absorb(AggFold(cs), c)
  {
    assert (cs + [c])[..|cs|] == cs;
  }

  // ---------------------------------------------------------------------------
  // What `agg` holds, stated independently of the loop

  function NameOf(o: Option<Credit>): Option<string> {
    if o.Some? then o.value.name else None
  }

  function WalletOf(o: Option<Credit>): Option<string> {
    if o.Some? then o.value.wallet else None
  }

  /**
   * The merged value of `ref` after credits `cs`: the first present name and
   * the first present wallet among its credits, and the sum of each amount.
   */
  function Expected(cs: seq<Credit>, ref: string): Agg {
    Agg(ref,
        NameOf(First(cs, CreditRef, HasName, ref)),
        WalletOf(First(cs, CreditRef, HasWallet, ref)),
        SumFor(cs, CreditRef, CreditInvite, ref),
        SumFor(cs, CreditRef, CreditFee, ref),
        SumFor(cs, CreditRef, CreditTuition, ref))
  }

  /** `agg` stands for credits `cs`: one value per ref code seen, holding its merged value. */
  ghost predicate Merged(m: AggMap, cs: seq<Credit>) {
    && m.order == Keys(cs, CreditRef)
    && (forall r :: r in m.values <==> r in m.order)
    && forall r :: r in m.values ==> m.values[r] == Expected(cs, r)
  }

  /** A first present name, once found, is itself present. */
  lemma FirstIsPresent(cs: seq<Credit>, ref: string)
    ensures Present(NameOf(First(cs, CreditRef, HasName, ref))) <==> First(cs, CreditRef, HasName, ref).Some?
    ensures Present(WalletOf(First(cs, CreditRef, HasWallet, ref))) <==> First(cs, CreditRef, HasWallet, ref).Some?
  {
    FirstPasses(cs, CreditRef, HasName, ref);
    FirstPasses(cs, CreditRef, HasWallet, ref);
  }

  lemma {:induction false} FirstPasses(cs: seq<Credit>, key: Credit -> string, ok: Credit -> bool, ref: string)
    ensures First(cs, key, ok, ref).Some? ==> ok(First(cs, key, ok, ref).value)
  {
    if cs != [] {
      FirstPasses(cs[..|cs| - 1], key, ok, ref);
    }
  }

  /** The merged value of `ref` before any of its credits. */
  lemma ExpectedFresh(cs: seq<Credit>, ref: string)
    requires ref !in Keys(cs, CreditRef)
    ensures Expected(cs, ref) == Agg(ref, None, None, 0.0, 0.0, 0.0)
  {
    SumForAbsent(cs, CreditRef, CreditInvite, ref);
    SumForAbsent(cs, CreditRef, CreditFee, ref);
    SumForAbsent(cs, CreditRef, CreditTuition, ref);
    FirstNone(cs, HasName, ref);
    FirstNone(cs, HasWallet, ref);
  }

  lemma {:induction false} FirstNone(cs: seq<Credit>, ok: Credit -> bool, ref: string)
    requires ref !in Keys(cs, CreditRef)
    ensures First(cs, CreditRef, ok, ref).None?
  {
    if cs != [] {
      var init, c := cs[..|cs| - 1], cs[|cs| - 1];
      assert cs == init + [c];
      KeysSnoc(init, c, CreditRef);
      FirstNone(init, ok, ref);
    }
  }

  /** One more credit changes only the merged value of its own ref code, as `Absorb` does. */
  lemma ExpectedSnoc(cs: seq<Credit>, c: Credit, ref: string)
    ensures ref != c.refCode ==> Expected(cs + [c], ref) == Expected(cs, ref)
    ensures ref == c.refCode ==>
      var e := Expected(cs, ref);
      var e' := Expected(cs + [c], ref);
      && e'.name == (if !Present(e.name) && Present(c.name) then c.name else e.name)
      && e'.wallet == (if !Present(e.wallet) && Present(c.wallet) then c.wallet else e.wallet)
      && e'.amountInvite == e.amountInvite + c.invite
      && e'.amountCenterFee == e.amountCenterFee + c.centerFee
      && e'.amountCenterTuition == e.amountCenterTuition + c.centerTuition
  {
    SumForSnoc(cs, c, CreditRef, CreditInvite, ref);
    SumForSnoc(cs, c, CreditRef, CreditFee, ref);
    SumForSnoc(cs, c, CreditRef, CreditTuition, ref);
    FirstSnoc(cs, c, CreditRef, HasName, ref);
    FirstSnoc(cs, c, CreditRef, HasWallet, ref);
    FirstIsPresent(cs, ref);
  }

  /** One loop step keeps `agg` in step with the credits seen. */
  lemma AbsorbStep(m: AggMap, cs: seq<Credit>, c: Credit)
    requires Merged(m, cs)
    ensures Merged(Absorb(m, c), cs + [c])
  {
    var m' := Absorb(m, c);
    KeysSnoc(cs, c, CreditRef);
    if c.refCode !in m.values {
      ExpectedFresh(cs, c.refCode);
    }
    assert (c.refCode in m.values) == (CreditRef(c) in Keys(cs, CreditRef));
    assert m'.order == Keys(cs + [c], CreditRef);
    forall r | r in m'.values
      ensures m'.values[r] == Expected(cs + [c], r)
    {
      ExpectedSnoc(cs, c, r);
      if r != c.refCode {
        assert r in m.values && m'.values[r] == m.values[r];
      }
    }
  }

  /** After any credits, `agg` holds exactly their merged values. */
  lemma {:induction false} AggFoldMerged(cs: seq<Credit>)
    ensures Merged(AggFold(cs), cs)
  {
    if cs != [] {
      var init, c := cs[..|cs| - 1], cs[|cs| - 1];
      assert cs == init + [c];
      AggFoldMerged(init);
      AbsorbStep(AggFold(init), init, c);
    }
  }

  // ---------------------------------------------------------------------------
  // The merge loops

  lemma InviteCreditsSnoc(invites: seq<InviteEntry>, i: nat)
    requires i < |invites|
    ensures InviteCredits(invites[..i + 1]) == InviteCredits(invites[..i]) + [InviteCredit(invites[i])]
  {
    assert InviteCredits(invites[..i + 1]) == InviteCredits(invites[..i]) + [InviteCredit(invites[i])];
  }

  lemma CreditsSnoc(invites: seq<InviteEntry>, centers: seq<CenterEntry>, j: nat)
    requires j <= |centers|
    ensures Credits(invites, centers[..0]) == InviteCredits(invites)
    ensures j < |centers| ==> Credits(invites, centers[..j + 1]) == Credits(invites, centers[..j]) + [CenterCredit(centers[j])]
  {
    assert CenterCredits(centers[..0]) == [];
    assert InviteCredits(invites) + [] == InviteCredits(invites);
    if j < |centers| {
      assert CenterCredits(centers[..j + 1]) == CenterCredits(centers[..j]) + [CenterCredit(centers[j])];
    }
  }

  /** One pass of the invite loop: the upsert, then only the invite sum grows. */
  method AbsorbInvite(m: AggMap, e: InviteEntry) returns (m': AggMap)
    ensures m' == Absorb(m, InviteCredit(e))
  {
    m' := UpsertAgg(m, e.refCode, e.name, e.wallet);
    var cur := m'.values[e.refCode];
    m' := m'.(values := m'.values[e.refCode := cur.(amountInvite := cur.amountInvite + NumOrZero(e.amount))]);
    var c := InviteCredit(e);
    assert cur.(amountInvite := cur.amountInvite + c.invite,
                amountCenterFee := cur.amountCenterFee + c.centerFee,
                amountCenterTuition := cur.amountCenterTuition + c.centerTuition)
        == cur.(amountInvite := cur.amountInvite + NumOrZero(e.amount));
  }

  /** One pass of the center loop: the upsert, then only the two center sums grow. */
  method AbsorbCenter(m: AggMap, e: CenterEntry) returns (m': AggMap)
    ensures m' == Absorb(m, CenterCredit(e))
  {
    m' := UpsertAgg(m, e.refCode, e.name, e.wallet);
    var cur := m'.values[e.refCode];
    m' := m'.(values := m'.values[e.refCode := cur.(
      amountCenterFee := cur.amountCenterFee + NumOrZero(e.amountFee),
      amountCenterTuition := cur.amountCenterTuition + NumOrZero(e.amountTuition))]);
    var c := CenterCredit(e);
    assert cur.(amountInvite := cur.amountInvite + c.invite,
                amountCenterFee := cur.amountCenterFee + c.centerFee,
                amountCenterTuition := cur.amountCenterTuition + c.centerTuition)
        == cur.(amountCenterFee := cur.amountCenterFee + NumOrZero(e.amountFee),
                amountCenterTuition := cur.amountCenterTuition + NumOrZero(e.amountTuition));
  }

  /**
   * The two loops of `buildRewardTransfers`: every invite, then every center
   * reward, is upserted into `agg` and its amounts added to the value.
   */
  method MergeByRef(invites: seq<InviteEntry>, centers: seq<CenterEntry>) returns (m: AggMap)
    ensures m == AggFold(Credits(invites, centers))
  {
    m := AggMap([], map[]);
    for i := 0 to |invites|
      invariant m == AggFold(InviteCredits(invites[..i]))
    {
      var e := invites[i];
      InviteCreditsSnoc(invites, i);
      AggFoldSnoc(InviteCredits(invites[..i]), InviteCredit(e));
      m := AbsorbInvite(m, e);
    }
    assert invites[..|invites|] == invites;
    CreditsSnoc(invites, centers, 0);
    for j := 0 to |centers|
      invariant m == AggFold(Credits(invites, centers[..j]))
    {
      var e := centers[j];
      CreditsSnoc(invites, centers, j);
      AggFoldSnoc(Credits(invites, centers[..j]), CenterCredit(e));
      m := AbsorbCenter(m, e);
    }
    assert centers[..|centers|] == centers;
  }

  // ---------------------------------------------------------------------------
  // Rows

  /** One payable row: the three sums and their total, pending, dated with the run day. */
  function ToPayable(a: Agg, today: string, nowIso: string): PayableRow {
    PayableRow(a.refCode, a.name, a.wallet, a.amountInvite, a.amountCenterFee, a.amountCenterTuition,
               a.amountInvite + a.amountCenterFee + a.amountCenterTuition, today, nowIso, Pending, AggMemo)
  }

  /** `Array.from(agg.values()).map(toRow)`. */
  function RowsOf(m: AggMap, today: string, nowIso: string): seq<PayableRow>
    requires forall r :: r in m.order ==> r in m.values
  {
    seq(|m.order|, i requires 0 <= i < |m.order| => ToPayable(m.values[m.order[i]], today, nowIso))
  }

  /** The rows of one run, one per ref code, in order of first appearance. */
  function PayableRows(invites: seq<InviteEntry>, centers: seq<CenterEntry>, today: string, nowIso: string): (rows: seq<PayableRow>)
  {
    var ks := Keys(Credits(invites, centers), CreditRef);
    seq(|ks|, i requires 0 <= i < |ks| => ToPayable(Expected(Credits(invites, centers), ks[i]), today, nowIso))
  }

  lemma RowsOfFold(invites: seq<InviteEntry>, centers: seq<CenterEntry>, today: string, nowIso: string)
    ensures forall r :: r in AggFold(Credits(invites, centers)).order ==> r in AggFold(Credits(invites, centers)).values
    ensures RowsOf(AggFold(Credits(invites, centers)), today, nowIso) == PayableRows(invites, centers, today, nowIso)
  {
    AggFoldMerged(Credits(invites, centers));
  }

  /** A ref code occurs in one of the two ledgers. */
  ghost predicate Seen(invites: seq<InviteEntry>, centers: seq<CenterEntry>, ref: string) {
    (exists i :: 0 <= i < |invites| && invites[i].refCode == ref) || (exists j :: 0 <= j < |centers| && centers[j].refCode == ref)
  }

  /** A ref code is seen in the ledgers exactly when one of the credits carries it. */
  lemma SeenCredit(invites: seq<InviteEntry>, centers: seq<CenterEntry>, ref: string)
    ensures Seen(invites, centers, ref) <==>
      exists i :: 0 <= i < |Credits(invites, centers)| && CreditRef(Credits(invites, centers)[i]) == ref
  {
    var cs := Credits(invites, centers);
    if exists i :: 0 <= i < |cs| && CreditRef(cs[i]) == ref {
      var i :| 0 <= i < |cs| && CreditRef(cs[i]) == ref;
      if i < |invites| {
        assert cs[i] == InviteCredit(invites[i]);
      } else {
        assert cs[i] == CenterCredit(centers[i - |invites|]);
      }
    }
    if exists i :: 0 <= i < |invites| && invites[i].refCode == ref {
      var i :| 0 <= i < |invites| && invites[i].refCode == ref;
      assert CreditRef(cs[i]) == ref;
    } else if exists j :: 0 <= j < |centers| && centers[j].refCode == ref {
      var j :| 0 <= j < |centers| && centers[j].refCode == ref;
      assert CreditRef(cs[|invites| + j]) == ref;
    }
  }

  /** Exactly one row per ref code found in either ledger. */
  lemma PayableRowsPerRef(invites: seq<InviteEntry>, centers: seq<CenterEntry>, today: string, nowIso: string)
    ensures var rows := PayableRows(invites, centers, today, nowIso);
      forall a, b :: 0 <= a < b < |rows| ==> rows[a].refCode != rows[b].refCode
    ensures var rows := PayableRows(invites, centers, today, nowIso);
      forall ref :: (exists a :: 0 <= a < |rows| && rows[a].refCode == ref) <==> Seen(invites, centers, ref)
  {
    var cs := Credits(invites, centers);
    var rows := PayableRows(invites, centers, today, nowIso);
    var ks := Keys(cs, CreditRef);
    KeysSpec(cs, CreditRef);
    assert forall a :: 0 <= a < |rows| ==> rows[a].refCode == ks[a];
    forall ref
      ensures (exists a :: 0 <= a < |rows| && rows[a].refCode == ref) <==> Seen(invites, centers, ref)
    {
      SeenCredit(invites, centers, ref);
      if exists a :: 0 <= a < |rows| && rows[a].refCode == ref {
        var a :| 0 <= a < |rows| && rows[a].refCode == ref;
        assert ks[a] in ks;
      }
      if ref in ks {
        var a :| 0 <= a < |ks| && ks[a] == ref;
        assert rows[a].refCode == ref;
      }
    }
  }

  /**
   * Each row's amounts: the invite sum counts only the ref's invite rows, the
   * two center sums only its center rows (so a ref absent from one ledger
   * gets 0 for that ledger's categories); the total is the sum of the three;
   * the row is pending and dated with the run day.
   */
  lemma PayableRowsAmounts(invites: seq<InviteEntry>, centers: seq<CenterEntry>, today: string, nowIso: string)
    ensures forall r :: r in PayableRows(invites, centers, today, nowIso) ==>
      && r.amountInvite == SumFor(InviteCredits(invites), CreditRef, CreditInvite, r.refCode)
      && r.amountCenterFee == SumFor(CenterCredits(centers), CreditRef, CreditFee, r.refCode)
      && r.amountCenterTuition == SumFor(CenterCredits(centers), CreditRef, CreditTuition, r.refCode)
      && r.totalAmount == r.amountInvite + r.amountCenterFee + r.amountCenterTuition
      && r.status == Pending && r.rewardDate == today && r.createdAt == nowIso
  {
    var ic, cc := InviteCredits(invites), CenterCredits(centers);
    forall r | r in PayableRows(invites, centers, today, nowIso)
      ensures r.amountInvite == SumFor(ic, CreditRef, CreditInvite, r.refCode)
      ensures r.amountCenterFee == SumFor(cc, CreditRef, CreditFee, r.refCode)
      ensures r.amountCenterTuition == SumFor(cc, CreditRef, CreditTuition, r.refCode)
    {
      var ref := r.refCode;
      SumForAppend(ic, cc, CreditRef, CreditInvite, ref);
      SumForAppend(ic, cc, CreditRef, CreditFee, ref);
      SumForAppend(ic, cc, CreditRef, CreditTuition, ref);
      SumForZero(cc, CreditRef, CreditInvite, ref);
      SumForZero(ic, CreditRef, CreditFee, ref);
      SumForZero(ic, CreditRef, CreditTuition, ref);
    }
  }

  /**
   * Each row's name is the first present name among the ref's rows, invites
   * before center rewards, and likewise its wallet; none when no row has one.
   */
  lemma PayableRowsContact(invites: seq<InviteEntry>, centers: seq<CenterEntry>, today: string, nowIso: string)
    ensures var cs := Credits(invites, centers);
      forall r :: r in PayableRows(invites, centers, today, nowIso) ==>
        && r.name == NameOf(First(cs, CreditRef, HasName, r.refCode))
        && r.wallet == WalletOf(First(cs, CreditRef, HasWallet, r.refCode))
        && (r.name.Some? ==> Present(r.name))
        && (r.wallet.Some? ==> Present(r.wallet))
  {
    var cs := Credits(invites, centers);
    forall r | r in PayableRows(invites, centers, today, nowIso)
      ensures (r.name.Some? ==> Present(r.name)) && (r.wallet.Some? ==> Present(r.wallet))
    {
      FirstIsPresent(cs, r.refCode);
    }
  }

  function RowTotal(r: PayableRow): real { r.totalAmount }

  lemma {:induction false} TotalOverKeys(ks: seq<string>, cs: seq<Credit>, today: string, nowIso: string)
    ensures Total(seq(|ks|, i requires 0 <= i < |ks| => ToPayable(Expected(cs, ks[i]), today, nowIso)), RowTotal) ==
      SumOverKeys(ks, cs, CreditRef, CreditInvite) + SumOverKeys(ks, cs, CreditRef, CreditFee)
        + SumOverKeys(ks, cs, CreditRef, CreditTuition)
  {
    if ks != [] {
      var init := ks[..|ks| - 1];
      TotalOverKeys(init, cs, today, nowIso);
      var rows := seq(|ks|, i requires 0 <= i < |ks| => ToPayable(Expected(cs, ks[i]), today, nowIso));
      assert rows[..|rows| - 1] == seq(|init|, i requires 0 <= i < |init| => ToPayable(Expected(cs, init[i]), today, nowIso));
    }
  }

  /** Merging loses nothing: the row totals add up to all invite amounts plus all center fee and tuition amounts. */
  lemma PayableRowsConserve(invites: seq<InviteEntry>, centers: seq<CenterEntry>, today: string, nowIso: string)
    ensures Total(PayableRows(invites, centers, today, nowIso), RowTotal) ==
      Total(InviteCredits(invites), CreditInvite) + Total(CenterCredits(centers), CreditFee)
        + Total(CenterCredits(centers), CreditTuition)
  {
    var cs := Credits(invites, centers);
    var ic, cc := InviteCredits(invites), CenterCredits(centers);
    TotalOverKeys(Keys(cs, CreditRef), cs, today, nowIso);
    GroupingConserves(cs, CreditRef, CreditInvite);
    GroupingConserves(cs, CreditRef, CreditFee);
    GroupingConserves(cs, CreditRef, CreditTuition);
    TotalAppend(ic, cc, CreditInvite);
    TotalAppend(ic, cc, CreditFee);
    TotalAppend(ic, cc, CreditTuition);
    TotalZero(cc, CreditInvite);
    TotalZero(ic, CreditFee);
    TotalZero(ic, CreditTuition);
  }

  // ---------------------------------------------------------------------------
  // The aggregator

  /** Why `buildRewardTransfers` reports `success: false`. */
  datatype BuildError = InviteLedgerFailed | CenterLedgerFailed | InsertRefused

  /** `{success: true, count}` or a failure. */
  datatype BuildResult = Built(count: nat) | BuildFailed(error: BuildError)

  /**
   * `buildRewardTransfers`: the two ledgers are the loaded values (None when
   * the load failed); `reward_transfers` is `table`; `today` is the run day.
   */
  method BuildRewardTransfers(
    invites: Option<seq<InviteEntry>>, centers: Option<seq<CenterEntry>>, today: string, nowIso: string,
    table: Table<PayableRow>)
    returns (r: BuildResult)
    modifies table
    ensures r == BuildFailed(InviteLedgerFailed) <==> invites.None?
    ensures r == BuildFailed(CenterLedgerFailed) <==> invites.Some? && centers.None?
    ensures invites.Some? && centers.Some? && PayableRows(invites.value, centers.value, today, nowIso) == [] ==>
      r == Built(0) && table.batches == old(table.batches)
    ensures r.BuildFailed? ==> table.rows == old(table.rows)
    ensures r.BuildFailed? && r.error != InsertRefused ==> table.batches == old(table.batches)
    ensures r.Built? ==>
      && invites.Some? && centers.Some?
      && var rows := PayableRows(invites.value, centers.value, today, nowIso);
      && r.count == |rows|
      && table.rows == old(table.rows) + rows
      && (rows != [] ==> table.batches == old(table.batches) + [rows])
    ensures r == BuildFailed(InsertRefused) ==>
      && invites.Some? && centers.Some?
      && var rows := PayableRows(invites.value, centers.value, today, nowIso);
      && rows != []
      && table.batches == old(table.batches) + [rows]
  {
    if invites.None? {
      return BuildFailed(InviteLedgerFailed);
    }
    if centers.None? {
      return BuildFailed(CenterLedgerFailed);
    }
    var m := MergeByRef(invites.value, centers.value);
    RowsOfFold(invites.value, centers.value, today, nowIso);
    var rows := RowsOf(m, today, nowIso);
    if |rows| == 0 {
      return Built(0);
    }
    var ok := table.Insert(rows);
    if !ok {
      return BuildFailed(InsertRefused);
    }
    return Built(|rows|);
  }
}

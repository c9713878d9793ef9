/**
 * The center reward calculator. A fee record paid at a center credits three
 * leaders: the center itself (a share of the commission and of the tuition),
 * and, when they exist, its master center and its grand center (a share of
 * the commission only). Credits are summed per leader and reward date, in
 * order of first appearance, and the non-zero sums are stored in chunks of
 * `ChunkSize`.
 */
module CenterRewards {
  import opened Records
  import opened Storage
  import opened Grouping

  const CenterMemo: string := "센터 리워드"

  // ---------------------------------------------------------------------------
  // Center lookups

  function IdOf(c: Center): string { c.id }

  function RefOf(c: Center): string { c.refCode }

  /**
   * A lookup in a JavaScript `Map` built from the center list keyed by
   * `field`: a later center with the same key overwrites an earlier one, so the
   * answer is the LAST center with that key.
   */
  function LastWith(centers: seq<Center>, field: Center -> string, k: string): (r: Option<Center>)
    ensures r.Some? ==> r.value in centers && field(r.value) == k
    ensures r.None? ==> forall c :: c in centers ==> field(c) != k
  {
    if centers == [] then None
    else if field(centers[|centers| - 1]) == k then Some(centers[|centers| - 1])
    else LastWith(centers[..|centers| - 1], field, k)
  }

  /** The lookup finds the center at the last index carrying the key, and misses only when no center carries it. */
  lemma {:induction false} LastWithIsLast(centers: seq<Center>, field: Center -> string, k: string)
    ensures LastWith(centers, field, k).None? <==> forall j :: 0 <= j < |centers| ==> field(centers[j]) != k
    ensures LastWith(centers, field, k).Some? ==>
      exists j :: 0 <= j < |centers| && centers[j] == LastWith(centers, field, k).value && field(centers[j]) == k &&
        forall j' :: j < j' < |centers| ==> field(centers[j']) != k
  {
    if centers != [] {
      var init, last := centers[..|centers| - 1], centers[|centers| - 1];
      LastWithIsLast(init, field, k);
      if field(last) == k {
        assert centers[|centers| - 1] == last;
      } else {
        if LastWith(init, field, k).Some? {
          var j :| 0 <= j < |init| && init[j] == LastWith(init, field, k).value && field(init[j]) == k &&
            forall j' :: j < j' < |init| ==> field(init[j']) != k;
          assert centers[j] == init[j];
          assert forall j' :: j < j' < |centers| ==> field(centers[j']) != k by {
            forall j' | j < j' < |centers|
              ensures field(centers[j']) != k
            {
              if j' < |init| {
                assert centers[j'] == init[j'];
              }
            }
          }
        } else {
          forall j | 0 <= j < |centers|
            ensures field(centers[j]) != k
          {
            if j < |init| {
              assert centers[j] == init[j];
              assert init[j] in init;
            }
          }
        }
      }
    }
  }

  /** `centerMap.get(id)`. */
  function CenterById(centers: seq<Center>, id: string): Option<Center> {
    LastWith(centers, IdOf, id)
  }

  /** `centerByRefCode.get(ref)`. */
  function CenterByRef(centers: seq<Center>, ref: string): Option<Center> {
    LastWith(centers, RefOf, ref)
  }

  /** Some center carries the id held in a nullable parent column (null reads as ""). */
  ghost predicate Names(centers: seq<Center>, parent: Option<string>) {
    exists c :: c in centers && c.id == parent.GetOr("")
  }

  // ---------------------------------------------------------------------------
  // Leaders and their shares of one fee

  /** A center credited for a fee, with its commission and tuition rates in percent. */
  datatype Leader = Leader(refCode: string, rateFee: real, rateTuition: real)

  /**
   * The leaders a fee paid at `center` credits: the center with the center
   * and tuition rates, then its master and its grand center with their own
   * commission rate and no tuition share, each only when its parent id names
   * a center.
   */
  function Leaders(center: Center, centers: seq<Center>, s: RewardSetting): (ls: seq<Leader>)
    ensures |ls| == 1 + (if Names(centers, center.parentMaster) then 1 else 0)
                      + (if Names(centers, center.parentGrand) then 1 else 0)
    ensures ls[0] == Leader(center.refCode, s.centerRate, s.tuitionCenterRate)
    ensures Names(centers, center.parentMaster) ==>
      var m := CenterById(centers, center.parentMaster.GetOr(""));
      m.Some? && ls[1] == Leader(m.value.refCode, s.masterCenterRate, 0.0)
    ensures Names(centers, center.parentGrand) ==>
      var g := CenterById(centers, center.parentGrand.GetOr(""));
      g.Some? && ls[|ls| - 1] == Leader(g.value.refCode, s.grandCenterRate, 0.0)
    ensures forall k :: 1 <= k < |ls| ==> ls[k].rateTuition == 0.0
    ensures forall k :: 1 <= k < |ls| ==> exists c :: c in centers && c.refCode == ls[k].refCode
    ensures center in centers ==> forall k :: 0 <= k < |ls| ==> exists c :: c in centers && c.refCode == ls[k].refCode
  {
    var master := CenterById(centers, center.parentMaster.GetOr(""));
    var grand := CenterById(centers, center.parentGrand.GetOr(""));
    [Leader(center.refCode, s.centerRate, s.tuitionCenterRate)]
      + (if master.Some? then [Leader(master.value.refCode, s.masterCenterRate, 0.0)] else [])
      + (if grand.Some? then [Leader(grand.value.refCode, s.grandCenterRate, 0.0)] else [])
  }

  /** The accumulation key: a leader's ref code and the fee's reward date. */
  datatype Key = Key(refCode: string, rewardDate: string)

  /** One leader's credit from one fee. */
  datatype Contribution = Contribution(key: Key, fee: real, tuition: real)

  function KeyOf(c: Contribution): Key { c.key }

  function FeeOf(c: Contribution): real { c.fee }

  function TuitionOf(c: Contribution): real { c.tuition }

  /** The credits of leaders `ls`, skipping a leader whose ref code names no center. */
  function LeaderShares(ls: seq<Leader>, rdate: string, baseFee: real, baseTu: real, centers: seq<Center>): seq<Contribution> {
    if ls == [] then []
    else
      var L := ls[|ls| - 1];
      LeaderShares(ls[..|ls| - 1], rdate, baseFee, baseTu, centers)
        + (if CenterByRef(centers, L.refCode).Some?
           then [Contribution(Key(L.refCode, rdate), Share(baseFee, L.rateFee), Share(baseTu, L.rateTuition))]
           else [])
  }

  /**
   * The center a fee is credited through: none when both its commission and
   * tuition are zero, when its center code or reward date is missing or empty,
   * or when the center code names no center.
   */
  function FeeCenter(f: FeeRecord, centers: seq<Center>): Option<Center> {
    if (NumOrZero(f.commission) == 0.0 && NumOrZero(f.tuition) == 0.0)
       || !Present(f.centerCode) || !Present(f.rewardDate)
    then None
    else CenterById(centers, f.centerCode.value)
  }

  /** The credits one fee record produces. */
  function FeeShares(f: FeeRecord, centers: seq<Center>, s: RewardSetting): seq<Contribution> {
    match FeeCenter(f, centers)
    case None => []
    case Some(c) =>
      LeaderShares(Leaders(c, centers, s), f.rewardDate.value, NumOrZero(f.commission), NumOrZero(f.tuition), centers)
  }

  /** The credits of all fee records, in the order the calculator visits them. */
  function AllShares(fees: seq<FeeRecord>, centers: seq<Center>, s: RewardSetting): seq<Contribution> {
    if fees == [] then []
    else AllShares(fees[..|fees| - 1], centers, s) + FeeShares(fees[|fees| - 1], centers, s)
  }

  lemma AllSharesSnoc(fees: seq<FeeRecord>, f: FeeRecord, centers: seq<Center>, s: RewardSetting)
    ensures AllShares(fees + [f], centers, s) == AllShares(fees, centers, s) + FeeShares(f, centers, s)
  {
    assert (fees + [f])[..|fees|] == fees;
  }

  lemma LeaderSharesSnoc(ls: seq<Leader>, L: Leader, rdate: string, baseFee: real, baseTu: real, centers: seq<Center>)
    ensures LeaderShares(ls + [L], rdate, baseFee, baseTu, centers) ==
      LeaderShares(ls, rdate, baseFee, baseTu, centers)
        + (if CenterByRef(centers, L.refCode).Some?
           then [Contribution(Key(L.refCode, rdate), Share(baseFee, L.rateFee), Share(baseTu, L.rateTuition))]
           else [])
  {
    assert (ls + [L])[..|ls|] == ls;
  }

  /** Every credit goes to a ref code that names a center. */
  ghost predicate Resolves(centers: seq<Center>, cs: seq<Contribution>) {
    forall i :: 0 <= i < |cs| ==> CenterByRef(centers, cs[i].key.refCode).Some?
  }

  lemma {:induction false} LeaderSharesResolve(ls: seq<Leader>, rdate: string, baseFee: real, baseTu: real, centers: seq<Center>)
    ensures Resolves(centers, LeaderShares(ls, rdate, baseFee, baseTu, centers))
  {
    if ls != [] {
      LeaderSharesResolve(ls[..|ls| - 1], rdate, baseFee, baseTu, centers);
    }
  }

  lemma {:induction false} AllSharesResolve(fees: seq<FeeRecord>, centers: seq<Center>, s: RewardSetting)
    ensures Resolves(centers, AllShares(fees, centers, s))
  {
    if fees != [] {
      var f := fees[|fees| - 1];
      AllSharesResolve(fees[..|fees| - 1], centers, s);
      match FeeCenter(f, centers)
      case None =>
      case Some(c) =>
        LeaderSharesResolve(Leaders(c, centers, s), f.rewardDate.value, NumOrZero(f.commission), NumOrZero(f.tuition), centers);
    }
  }

  /** When every leader names a center, no leader is skipped: one credit per leader, in order. */
  lemma {:induction false} LeaderSharesComplete(ls: seq<Leader>, rdate: string, baseFee: real, baseTu: real, centers: seq<Center>)
    requires forall k :: 0 <= k < |ls| ==> CenterByRef(centers, ls[k].refCode).Some?
    ensures |LeaderShares(ls, rdate, baseFee, baseTu, centers)| == |ls|
    ensures forall k :: 0 <= k < |ls| ==>
      LeaderShares(ls, rdate, baseFee, baseTu, centers)[k] ==
        Contribution(Key(ls[k].refCode, rdate), Share(baseFee, ls[k].rateFee), Share(baseTu, ls[k].rateTuition))
  {
    if ls != [] {
      var init, L := ls[..|ls| - 1], ls[|ls| - 1];
      assert ls == init + [L];
      assert forall k :: 0 <= k < |init| ==> init[k] == ls[k];
      LeaderSharesComplete(init, rdate, baseFee, baseTu, centers);
      LeaderSharesSnoc(init, L, rdate, baseFee, baseTu, centers);
    }
  }

  /**
   * What one fee contributes. A fee that is skipped (zero amounts, no center
   * code or date, unknown center) contributes nothing; any other fee credits
   * every one of its leaders, the own center first with the center and tuition
   * rates, master and grand with their own commission rate (see `Leaders`)
   * and no tuition share. The leader lookup by ref
   * code never misses, so a fee contributes nothing exactly when it is skipped.
   */
  lemma FeeSharesSpec(f: FeeRecord, centers: seq<Center>, s: RewardSetting)
    ensures FeeShares(f, centers, s) == [] <==> FeeCenter(f, centers).None?
    ensures FeeCenter(f, centers).Some? ==>
      var c := FeeCenter(f, centers).value;
      var ls := Leaders(c, centers, s);
      var cs := FeeShares(f, centers, s);
      && |cs| == |ls|
      && cs[0] == Contribution(Key(c.refCode, f.rewardDate.value),
                               Share(NumOrZero(f.commission), s.centerRate),
                               Share(NumOrZero(f.tuition), s.tuitionCenterRate))
      && forall k :: 1 <= k < |cs| ==>
           && cs[k].key == Key(ls[k].refCode, f.rewardDate.value)
           && cs[k].fee == Share(NumOrZero(f.commission), ls[k].rateFee)
           && cs[k].tuition == Share(NumOrZero(f.tuition), 0.0)
  {
    match FeeCenter(f, centers)
    case None =>
    case Some(c) =>
      var ls := Leaders(c, centers, s);
      assert c in centers;
      forall k | 0 <= k < |ls|
        ensures CenterByRef(centers, ls[k].refCode).Some?
      {
        var c' :| c' in centers && c'.refCode == ls[k].refCode;
        assert RefOf(c') == ls[k].refCode;
      }
      LeaderSharesComplete(ls, f.rewardDate.value, NumOrZero(f.commission), NumOrZero(f.tuition), centers);
  }

  // ---------------------------------------------------------------------------
  // Accumulation per (leader, reward date)

  /** One value of the accumulation map: the leader's center data and its running sums. */
  datatype Accrual = Accrual(
    refCode: string,
    rewardDate: string,
    centerId: string,
    name: Option<string>,
    wallet: Option<string>,
    amountFee: real,
    amountTuition: real)

  function AccrualFee(e: Accrual): real { e.amountFee }

  function AccrualTuition(e: Accrual): real { e.amountTuition }

  /**
   * The accumulated value for key `k` after credits `cs`: the center found by
   * the leader's ref code, and the sums of the credits under `k`.
   */
  function Expected(cs: seq<Contribution>, centers: seq<Center>, k: Key): Accrual
    requires CenterByRef(centers, k.refCode).Some?
  {
    var m := CenterByRef(centers, k.refCode).value;
    Accrual(k.refCode, k.rewardDate, m.id, m.name, m.wallet,
            SumFor(cs, KeyOf, FeeOf, k), SumFor(cs, KeyOf, TuitionOf, k))
  }

  /** Every credited key names a center. */
  lemma KeysResolve(cs: seq<Contribution>, centers: seq<Center>)
    requires Resolves(centers, cs)
    ensures forall k :: k in Keys(cs, KeyOf) ==> CenterByRef(centers, k.refCode).Some?
  {
    KeysSpec(cs, KeyOf);
    forall k | k in Keys(cs, KeyOf)
      ensures CenterByRef(centers, k.refCode).Some?
    {
      var i :| 0 <= i < |cs| && KeyOf(cs[i]) == k;
    }
  }

  /** The entries of keys `ks`, in that order. */
  function EntriesFor(ks: seq<Key>, cs: seq<Contribution>, centers: seq<Center>): (es: seq<Accrual>)
    requires forall k :: k in ks ==> CenterByRef(centers, k.refCode).Some?
    ensures |es| == |ks|
    ensures forall i :: 0 <= i < |ks| ==> es[i] == Expected(cs, centers, ks[i])
  {
    seq(|ks|, i requires 0 <= i < |ks| => Expected(cs, centers, ks[i]))
  }

  /** The map's values in insertion order, as `Array.from(rewardMap.values())` lists them. */
  function ExpectedEntries(cs: seq<Contribution>, centers: seq<Center>): seq<Accrual>
    requires Resolves(centers, cs)
  {
    KeysResolve(cs, centers);
    EntriesFor(Keys(cs, KeyOf), cs, centers)
  }

  /** `rewardMap`: its keys in insertion order, and its values. */
  datatype RewardMap = RewardMap(order: seq<Key>, values: map<Key, Accrual>)

  /** `rewardMap` stands for credits `cs`: one value per credited key, holding that key's sums. */
  ghost predicate Accumulates(rm: RewardMap, cs: seq<Contribution>, centers: seq<Center>) {
    && Resolves(centers, cs)
    && rm.order == Keys(cs, KeyOf)
    && (forall k :: k in rm.values <==> k in rm.order)
    && forall k :: k in rm.values ==> CenterByRef(centers, k.refCode).Some? && rm.values[k] == Expected(cs, centers, k)
  }

  /** The value `rewardMap` holds for `c`'s key after adding `c`: the earlier value, or a fresh one from center `m`, plus `c`. */
  function Credited(values: map<Key, Accrual>, m: Center, c: Contribution): Accrual {
    var prev := if c.key in values then values[c.key]
                else Accrual(c.key.refCode, c.key.rewardDate, m.id, m.name, m.wallet, 0.0, 0.0);
    prev.(amountFee := prev.amountFee + c.fee, amountTuition := prev.amountTuition + c.tuition)
  }

  /** One `rewardMap.set(key, prev)` after adding credit `c`. */
  function Accrue(rm: RewardMap, m: Center, c: Contribution): RewardMap {
    RewardMap(if c.key in rm.values then rm.order else rm.order + [c.key],
              rm.values[c.key := Credited(rm.values, m, c)])
  }

  /** `rewardMap` after credits `cs`, a credit whose leader names no center being skipped. */
  function Fold(cs: seq<Contribution>, centers: seq<Center>): RewardMap {
    if cs == [] then RewardMap([], map[])
    else
      var c := cs[|cs| - 1];
      var rm := Fold(cs[..|cs| - 1], centers);
      match CenterByRef(centers, c.key.refCode)
      case None => rm
      case Some(m) => Accrue(rm, m, c)
  }

  lemma FoldSnoc(cs: seq<Contribution>, c: Contribution, centers: seq<Center>)
    ensures Fold(cs + [c], centers) ==
      match CenterByRef(centers, c.key.refCode)
      case None => Fold(cs, centers)
      case Some(m) => Accrue(Fold(cs, centers), m, c)
  {
    assert (cs + [c])[..|cs|] == cs;
  }

  /** One more credit changes only the entry of its own key, by its amounts. */
  lemma ExpectedSnoc(cs: seq<Contribution>, c: Contribution, centers: seq<Center>, k: Key)
    requires CenterByRef(centers, k.refCode).Some?
    ensures Expected(cs + [c], centers, k) ==
      if c.key == k
      then Expected(cs, centers, k).(amountFee := Expected(cs, centers, k).amountFee + c.fee,
                                     amountTuition := Expected(cs, centers, k).amountTuition + c.tuition)
      else Expected(cs, centers, k)
  {
    SumForSnoc(cs, c, KeyOf, FeeOf, k);
    SumForSnoc(cs, c, KeyOf, TuitionOf, k);
  }

  /** The entry of a key not credited yet is the fresh one the calculator creates. */
  lemma ExpectedFresh(cs: seq<Contribution>, centers: seq<Center>, k: Key)
    requires CenterByRef(centers, k.refCode).Some?
    requires k !in Keys(cs, KeyOf)
    ensures var m := CenterByRef(centers, k.refCode).value;
      Expected(cs, centers, k) == Accrual(k.refCode, k.rewardDate, m.id, m.name, m.wallet, 0.0, 0.0)
  {
    SumForAbsent(cs, KeyOf, FeeOf, k);
    SumForAbsent(cs, KeyOf, TuitionOf, k);
  }

  lemma ResolvesSnoc(cs: seq<Contribution>, c: Contribution, centers: seq<Center>)
    requires Resolves(centers, cs)
    requires CenterByRef(centers, c.key.refCode).Some?
    ensures Resolves(centers, cs + [c])
  {
    forall i | 0 <= i < |cs| + 1
      ensures CenterByRef(centers, (cs + [c])[i].key.refCode).Some?
    {
      if i < |cs| {
        assert (cs + [c])[i] == cs[i];
      }
    }
  }

  /** One `rewardMap` update keeps it in step with the credits seen. */
  lemma AccrueStep(rm: RewardMap, cs: seq<Contribution>, centers: seq<Center>, c: Contribution)
    requires Accumulates(rm, cs, centers)
    requires CenterByRef(centers, c.key.refCode).Some?
    ensures Accumulates(Accrue(rm, CenterByRef(centers, c.key.refCode).value, c), cs + [c], centers)
  {
    var m := CenterByRef(centers, c.key.refCode).value;
    var rm' := Accrue(rm, m, c);
    KeysSnoc(cs, c, KeyOf);
    ResolvesSnoc(cs, c, centers);
    if c.key !in rm.values {
      ExpectedFresh(cs, centers, c.key);
    }
    assert (c.key in rm.values) == (KeyOf(c) in Keys(cs, KeyOf));
    assert rm'.order == Keys(cs + [c], KeyOf);
    forall k | k in rm'.values
      ensures CenterByRef(centers, k.refCode).Some? && rm'.values[k] == Expected(cs + [c], centers, k)
    {
      ExpectedSnoc(cs, c, centers, k);
      if k == c.key {
        if c.key in rm.values {
          assert rm.values[k] == Expected(cs, centers, k);
        }
        assert rm'.values[k] == Credited(rm.values, m, c);
      } else {
        assert k in rm.values && rm'.values[k] == rm.values[k];
      }
    }
  }

  /** After credits whose leaders all name a center, `rewardMap` holds exactly their per-key sums. */
  lemma {:induction false} FoldAccumulates(cs: seq<Contribution>, centers: seq<Center>)
    requires Resolves(centers, cs)
    ensures Accumulates(Fold(cs, centers), cs, centers)
  {
    if cs != [] {
      var init, c := cs[..|cs| - 1], cs[|cs| - 1];
      assert cs == init + [c];
      assert CenterByRef(centers, c.key.refCode).Some?;
      FoldAccumulates(init, centers);
      FoldSnoc(init, c, centers);
      AccrueStep(Fold(init, centers), init, centers, c);
    }
  }

  /** `Array.from(rewardMap.values())`: the values in key insertion order. */
  function Values(rm: RewardMap): seq<Accrual>
    requires forall k :: k in rm.order ==> k in rm.values
  {
    seq(|rm.order|, i requires 0 <= i < |rm.order| => rm.values[rm.order[i]])
  }

  /** Listing `rewardMap` after all credits gives one entry per credited key, in order of first credit. */
  lemma FoldEntries(cs: seq<Contribution>, centers: seq<Center>)
    requires Resolves(centers, cs)
    ensures forall k :: k in Fold(cs, centers).order ==> k in Fold(cs, centers).values
    ensures Values(Fold(cs, centers)) == ExpectedEntries(cs, centers)
  {
    FoldAccumulates(cs, centers);
    KeysResolve(cs, centers);
    assert Values(Fold(cs, centers)) == EntriesFor(Keys(cs, KeyOf), cs, centers);
  }

  /**
   * One pass of the leader loop: the key's value, created from the leader's
   * center with zero sums when new, gets credit `c` added; a new key is
   * appended to the order.
   */
  method CreditKey(order: seq<Key>, values: map<Key, Accrual>, meta: Center, c: Contribution)
    returns (order': seq<Key>, values': map<Key, Accrual>)
    ensures RewardMap(order', values') == Accrue(RewardMap(order, values), meta, c)
  {
    var prev := if c.key in values then values[c.key]
                else Accrual(c.key.refCode, c.key.rewardDate, meta.id, meta.name, meta.wallet, 0.0, 0.0);
    prev := prev.(amountFee := prev.amountFee + c.fee, amountTuition := prev.amountTuition + c.tuition);
    order' := order;
    if c.key !in values {
      order' := order + [c.key];
    }
    values' := values[c.key := prev];
  }

  /**
   * The inner loop of `calculateCenterRewards`: adds the credit of each leader
   * of one fee into the value of its (leader, date) key, skipping a leader
   * whose ref code names no center.
   */
  method AccrueLeaders(
    rm: RewardMap, leaders: seq<Leader>, rdate: string, baseFee: real, baseTu: real,
    centers: seq<Center>, ghost done: seq<Contribution>)
    returns (rm': RewardMap)
    requires rm == Fold(done, centers)
    ensures rm' == Fold(done + LeaderShares(leaders, rdate, baseFee, baseTu, centers), centers)
  {
    var order, values := rm.order, rm.values;
    assert done + LeaderShares(leaders[..0], rdate, baseFee, baseTu, centers) == done;
    for j := 0 to |leaders|
      invariant RewardMap(order, values) == Fold(done + LeaderShares(leaders[..j], rdate, baseFee, baseTu, centers), centers)
    {
      var L := leaders[j];
      var key := Key(L.refCode, rdate);
      var c := Contribution(key, Share(baseFee, L.rateFee), Share(baseTu, L.rateTuition));
      var meta := CenterByRef(centers, L.refCode);
      ghost var sofar := done + LeaderShares(leaders[..j], rdate, baseFee, baseTu, centers);
      assert leaders[..j + 1] == leaders[..j] + [L];
      LeaderSharesSnoc(leaders[..j], L, rdate, baseFee, baseTu, centers);
      if meta.None? {
        assert done + LeaderShares(leaders[..j + 1], rdate, baseFee, baseTu, centers) == sofar;
        continue;
      }
      assert done + LeaderShares(leaders[..j + 1], rdate, baseFee, baseTu, centers) == sofar + [c];
      FoldSnoc(sofar, c, centers);
      order, values := CreditKey(order, values, meta.value, c);
    }
    assert leaders[..|leaders|] == leaders;
    rm' := RewardMap(order, values);
  }

  /**
   * The accumulation loop of `calculateCenterRewards`: visits the fees and,
   * for each fee that is not skipped, its leaders. The result lists one value
   * per credited (leader, date) key, in order of first credit, holding that
   * key's sums.
   */
  method AccumulateCenterRewards(fees: seq<FeeRecord>, centers: seq<Center>, s: RewardSetting) returns (entries: seq<Accrual>)
    ensures Resolves(centers, AllShares(fees, centers, s))
    ensures entries == ExpectedEntries(AllShares(fees, centers, s), centers)
  {
    var rm := RewardMap([], map[]);
    for i := 0 to |fees|
      invariant rm == Fold(AllShares(fees[..i], centers, s), centers)
    {
      var f := fees[i];
      ghost var done := AllShares(fees[..i], centers, s);
      assert fees[..i + 1] == fees[..i] + [f];
      AllSharesSnoc(fees[..i], f, centers, s);
      var baseFee := NumOrZero(f.commission);
      var baseTu := NumOrZero(f.tuition);
      if (baseFee == 0.0 && baseTu == 0.0) || !Present(f.centerCode) || !Present(f.rewardDate) {
        assert done + [] == done;
        continue;
      }
      var center := CenterById(centers, f.centerCode.value);
      if center.None? {
        assert done + [] == done;
        continue;
      }
      var leaders := Leaders(center.value, centers, s);
      rm := AccrueLeaders(rm, leaders, f.rewardDate.value, baseFee, baseTu, centers, done);
    }
    assert fees[..|fees|] == fees;
    AllSharesResolve(fees, centers, s);
    FoldEntries(AllShares(fees, centers, s), centers);
    entries := Values(rm);
  }

  // ---------------------------------------------------------------------------
  // Rows to store

  /** An entry is stored when one of its sums is positive. */
  predicate Payable(e: Accrual) {
    e.amountFee > 0.0 || e.amountTuition > 0.0
  }

  function ToRow(e: Accrual, nowIso: string): CenterRow {
    CenterRow(e.refCode, e.centerId, e.name, e.wallet, e.rewardDate, nowIso, e.amountFee, e.amountTuition, CenterMemo)
  }

  /** `.filter(payable).map(toRow)`. */
  function RowsOf(entries: seq<Accrual>, nowIso: string): seq<CenterRow> {
    if entries == [] then []
    else
      var e := entries[|entries| - 1];
      RowsOf(entries[..|entries| - 1], nowIso) + (if Payable(e) then [ToRow(e, nowIso)] else [])
  }

  /** The stored rows are exactly the payable entries, each turned into a row, in order. */
  lemma {:induction false} RowsOfSpec(entries: seq<Accrual>, nowIso: string)
    ensures |RowsOf(entries, nowIso)| <= |entries|
    ensures forall r :: r in RowsOf(entries, nowIso) <==> exists e :: e in entries && Payable(e) && r == ToRow(e, nowIso)
  {
    if entries != [] {
      var init, e := entries[..|entries| - 1], entries[|entries| - 1];
      assert entries == init + [e];
      RowsOfSpec(init, nowIso);
    }
  }

  /** The rows one run of the calculator stores. */
  function CenterRewardRows(fees: seq<FeeRecord>, centers: seq<Center>, s: RewardSetting, nowIso: string): seq<CenterRow> {
    AllSharesResolve(fees, centers, s);
    RowsOf(ExpectedEntries(AllShares(fees, centers, s), centers), nowIso)
  }

  /**
   * Every stored row is the entry of one credited (leader, date) key: the
   * leader's center data and the sums of that key's credits, at least one of
   * them positive.
   */
  lemma CenterRowsSound(fees: seq<FeeRecord>, centers: seq<Center>, s: RewardSetting, nowIso: string)
    ensures var cs := AllShares(fees, centers, s);
      forall r :: r in CenterRewardRows(fees, centers, s, nowIso) ==>
        exists k :: k in Keys(cs, KeyOf) && CenterByRef(centers, k.refCode).Some? &&
          Payable(Expected(cs, centers, k)) && r == ToRow(Expected(cs, centers, k), nowIso)
  {
    var cs := AllShares(fees, centers, s);
    AllSharesResolve(fees, centers, s);
    KeysResolve(cs, centers);
    var es := ExpectedEntries(cs, centers);
    var ks := Keys(cs, KeyOf);
    RowsOfSpec(es, nowIso);
    forall r | r in RowsOf(es, nowIso)
      ensures exists k :: k in ks && CenterByRef(centers, k.refCode).Some? &&
                          Payable(Expected(cs, centers, k)) && r == ToRow(Expected(cs, centers, k), nowIso)
    {
      var e :| e in es && Payable(e) && r == ToRow(e, nowIso);
      var i :| 0 <= i < |es| && es[i] == e;
      assert ks[i] in ks;
    }
  }

  /** Every credited key whose entry has a positive sum is stored. */
  lemma CenterRowsComplete(fees: seq<FeeRecord>, centers: seq<Center>, s: RewardSetting, nowIso: string)
    ensures var cs := AllShares(fees, centers, s);
      forall k :: k in Keys(cs, KeyOf) && CenterByRef(centers, k.refCode).Some? && Payable(Expected(cs, centers, k)) ==>
        ToRow(Expected(cs, centers, k), nowIso) in CenterRewardRows(fees, centers, s, nowIso)
  {
    var cs := AllShares(fees, centers, s);
    AllSharesResolve(fees, centers, s);
    KeysResolve(cs, centers);
    var es := ExpectedEntries(cs, centers);
    var ks := Keys(cs, KeyOf);
    RowsOfSpec(es, nowIso);
    forall k | k in ks && CenterByRef(centers, k.refCode).Some? && Payable(Expected(cs, centers, k))
      ensures ToRow(Expected(cs, centers, k), nowIso) in RowsOf(es, nowIso)
    {
      var i :| 0 <= i < |ks| && ks[i] == k;
      assert es[i] in es;
    }
  }

  function RowKey(r: CenterRow): Key { Key(r.refCode, r.rewardDate) }

  function EntryKey(e: Accrual): Key { Key(e.refCode, e.rewardDate) }

  /** Filtering keeps distinct keys distinct. */
  lemma {:induction false} RowsOfDistinct(entries: seq<Accrual>, nowIso: string)
    requires forall a, b :: 0 <= a < b < |entries| ==> EntryKey(entries[a]) != EntryKey(entries[b])
    ensures var rows := RowsOf(entries, nowIso);
      forall a, b :: 0 <= a < b < |rows| ==> RowKey(rows[a]) != RowKey(rows[b])
  {
    if entries != [] {
      var init, e := entries[..|entries| - 1], entries[|entries| - 1];
      RowsOfDistinct(init, nowIso);
      RowsOfSpec(init, nowIso);
      var rows := RowsOf(init, nowIso);
      var rows' := RowsOf(entries, nowIso);
      assert rows' == rows + (if Payable(e) then [ToRow(e, nowIso)] else []);
      forall a, b | 0 <= a < b < |rows'|
        ensures RowKey(rows'[a]) != RowKey(rows'[b])
      {
        assert rows'[a] == rows[a];
        if b == |rows| {
          assert rows[a] in rows;
          var e' :| e' in init && Payable(e') && rows[a] == ToRow(e', nowIso);
          var i :| 0 <= i < |init| && init[i] == e';
          assert entries[i] == e';
        }
      }
    }
  }

  /** No (leader, date) key is stored twice by one run. */
  lemma CenterRowsDistinct(fees: seq<FeeRecord>, centers: seq<Center>, s: RewardSetting, nowIso: string)
    ensures var rows := CenterRewardRows(fees, centers, s, nowIso);
      forall a, b :: 0 <= a < b < |rows| ==> RowKey(rows[a]) != RowKey(rows[b])
  {
    var cs := AllShares(fees, centers, s);
    AllSharesResolve(fees, centers, s);
    KeysSpec(cs, KeyOf);
    var es := ExpectedEntries(cs, centers);
    var ks := Keys(cs, KeyOf);
    assert Distinct(ks);
    forall a, b | 0 <= a < b < |es|
      ensures EntryKey(es[a]) != EntryKey(es[b])
    {
      assert EntryKey(es[a]) == ks[a];
      assert EntryKey(es[b]) == ks[b];
    }
    RowsOfDistinct(es, nowIso);
    assert CenterRewardRows(fees, centers, s, nowIso) == RowsOf(es, nowIso);
  }

  /** Adding up the entries loses no credit: both sums over the entries equal the sums over all credits. */
  lemma EntriesConserve(cs: seq<Contribution>, centers: seq<Center>)
    requires Resolves(centers, cs)
    ensures Total(ExpectedEntries(cs, centers), AccrualFee) == Total(cs, FeeOf)
    ensures Total(ExpectedEntries(cs, centers), AccrualTuition) == Total(cs, TuitionOf)
  {
    KeysResolve(cs, centers);
    EntriesSumOverKeys(Keys(cs, KeyOf), cs, centers);
    GroupingConserves(cs, KeyOf, FeeOf);
    GroupingConserves(cs, KeyOf, TuitionOf);
  }

  lemma {:induction false} EntriesSumOverKeys(ks: seq<Key>, cs: seq<Contribution>, centers: seq<Center>)
    requires forall k :: k in ks ==> CenterByRef(centers, k.refCode).Some?
    ensures Total(EntriesFor(ks, cs, centers), AccrualFee) == SumOverKeys(ks, cs, KeyOf, FeeOf)
    ensures Total(EntriesFor(ks, cs, centers), AccrualTuition) == SumOverKeys(ks, cs, KeyOf, TuitionOf)
  {
    if ks != [] {
      var init := ks[..|ks| - 1];
      EntriesSumOverKeys(init, cs, centers);
      var es := EntriesFor(ks, cs, centers);
      assert es[..|es| - 1] == EntriesFor(init, cs, centers);
    }
  }

  // ---------------------------------------------------------------------------
  // The calculator

  /**
   * `calculateCenterRewards`: settings, fees and centers are the loaded
   * values (None when the load failed); `reward_centers` is `table`.
   */
  method CalculateCenterRewards(
    settings: Option<RewardSetting>, fees: Option<seq<FeeRecord>>, centers: Option<seq<Center>>,
    nowIso: string, table: Table<CenterRow>)
    returns (r: CalcResult)
    modifies table
    ensures r == Failure(SettingsMissing) <==> settings.None?
    ensures r == Failure(FeeLoadFailed) <==> settings.Some? && fees.None?
    ensures r == Failure(NoFees) <==> settings.Some? && fees == Some([])
    ensures r == Failure(CenterLoadFailed) <==> settings.Some? && fees.Some? && fees.value != [] && centers.None?
    ensures r == Failure(NoCenters) <==> settings.Some? && fees.Some? && fees.value != [] && centers == Some([])
    ensures settings.Some? && fees.Some? && fees.value != [] && centers.Some? && centers.value != [] ==>
      r.Inserted? || r.error.InsertFailed?
    ensures settings.Some? && fees.Some? && fees.value != [] && centers.Some? && centers.value != []
            && CenterRewardRows(fees.value, centers.value, settings.value, nowIso) == []
            ==> r == Inserted(0)
    ensures r.Failure? && !r.error.InsertFailed? ==> table.rows == old(table.rows) && table.batches == old(table.batches)
    ensures r.Inserted? ==>
      && settings.Some? && fees.Some? && centers.Some?
      && var rows := CenterRewardRows(fees.value, centers.value, settings.value, nowIso);
      && r.count == |rows|
      && table.rows == old(table.rows) + rows
      && table.batches == old(table.batches) + Chunks(rows)
    ensures r.Failure? && r.error.InsertFailed? ==>
      && settings.Some? && fees.Some? && centers.Some?
      && var rows := CenterRewardRows(fees.value, centers.value, settings.value, nowIso);
      && var until := r.error.insertedUntil;
      && until % ChunkSize == 0
      && until < |rows|
      && table.rows == old(table.rows) + rows[..until]
      && table.batches == old(table.batches) + Chunks(rows[..until]) + [rows[until..Min(until + ChunkSize, |rows|)]]
  {
    if settings.None? {
      return Failure(SettingsMissing);
    }
    if fees.None? {
      return Failure(FeeLoadFailed);
    }
    if |fees.value| == 0 {
      return Failure(NoFees);
    }
    if centers.None? {
      return Failure(CenterLoadFailed);
    }
    if |centers.value| == 0 {
      return Failure(NoCenters);
    }
    var entries := AccumulateCenterRewards(fees.value, centers.value, settings.value);
    var rows := RowsOf(entries, nowIso);
    assert rows == CenterRewardRows(fees.value, centers.value, settings.value, nowIso);
    if |rows| == 0 {
      return Inserted(0);
    }
    var stored := InsertInChunks(table, rows);
    if stored.StoppedAt? {
      return Failure(InsertFailed(stored.insertedUntil));
    }
    return Inserted(|rows|);
  }
}

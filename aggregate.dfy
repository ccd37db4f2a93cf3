/** The aggregation step: the overall support rate and, for each of the five
    demographic columns, a group-by giving each observed value's respondent
    count and support rate. */
module Aggregate {
  import opened Survey

  /** One row of a breakdown: a category value, the number of respondents
      with that value (the group's count) and their mean support. */
  datatype Group = Group(value: string, respondentCount: nat, supportRate: Rate)

  /** The aggregation result: the overall rate and one breakdown per column. */
  datatype Summary = Summary(overallSupportRate: Option<Rate>, breakdowns: map<Dimension, seq<Group>>)

  /** What a group-by over column `d` must report for value `v`: nothing for
      a value no record has, otherwise the size and mean of its records. */
  function Expected(rs: seq<Record>, d: Dimension, v: string): Option<Group>
  {
    var members := Select(rs, d, v);
    if members == [] then None else Some(Group(v, |members|, Rate(SupportSum(members), |members|)))
  }

  /** No category value has two rows. */
  predicate DistinctValues(gs: seq<Group>)
  {
    forall i, j :: 0 <= i < j < |gs| ==> gs[i].value != gs[j].value
  }

  function Values(gs: seq<Group>): set<string>
  {
    set g | g in gs :: g.value
  }

  /** The row reporting value `v`, if any. */
  function Lookup(gs: seq<Group>, v: string): Option<Group>
  {
    if gs == [] then None else if gs[0].value == v then Some(gs[0]) else Lookup(gs[1..], v)
  }

  /** The sum of the respondent counts of a breakdown. */
  function TotalCount(gs: seq<Group>): nat
  {
    if gs == [] then 0 else gs[0].respondentCount + TotalCount(gs[1..])
  }

  /** A group with one more respondent, whose support value is `s`; a group
      of one when there was none. */
  function Tally(g: Option<Group>, v: string, s: int): Group
  {
    match g
    case None => Group(v, 1, Rate(s, 1))
    case Some(h) => Group(v, h.respondentCount + 1, Rate(h.supportRate.num + s, h.supportRate.den + 1))
  }

  /** Accounts for one more record with value `v` and support `s`: its group
      is updated in place, or a new group is added at the end. */
  function Add(gs: seq<Group>, v: string, s: int): seq<Group>
  {
    if gs == [] then [Tally(None, v, s)]
    else if gs[0].value == v then [Tally(Some(gs[0]), v, s)] + gs[1..]
    else [gs[0]] + Add(gs[1..], v, s)
  }

  lemma HeadNotInTail(gs: seq<Group>)
    requires DistinctValues(gs) && gs != []
    ensures gs[0].value !in Values(gs[1..])
  {
    forall k | 0 <= k < |gs| - 1
      ensures gs[1..][k].value != gs[0].value
    {
      assert gs[1..][k] == gs[k + 1];
    }
  }

  /** Adding a record adds its value to the breakdown and nothing else. */
  lemma {:induction false} AddValues(gs: seq<Group>, v: string, s: int)
    ensures Values(Add(gs, v, s)) == Values(gs) + {v}
  {
    if gs != [] {
      assert Values(gs) == {gs[0].value} + Values(gs[1..]);
      if gs[0].value == v {
        assert Values(Add(gs, v, s)) == {v} + Values(gs[1..]);
      } else {
        AddValues(gs[1..], v, s);
        assert Values(Add(gs, v, s)) == {gs[0].value} + Values(Add(gs[1..], v, s));
      }
    }
  }

  /** Adding a record keeps every value on a row of its own. */
  lemma {:induction false} AddDistinct(gs: seq<Group>, v: string, s: int)
    requires DistinctValues(gs)
    ensures DistinctValues(Add(gs, v, s))
  {
    if gs != [] && gs[0].value != v {
      var rest := Add(gs[1..], v, s);
      AddDistinct(gs[1..], v, s);
      AddValues(gs[1..], v, s);
      HeadNotInTail(gs);
      forall k | 0 <= k < |rest|
        ensures rest[k].value != gs[0].value
      {
        assert rest[k].value in Values(rest);
      }
    }
  }

  /** Adding a record updates the group of its own value and no other. */
  lemma {:induction false} AddLookup(gs: seq<Group>, v: string, s: int, u: string)
    ensures Lookup(Add(gs, v, s), u) == if u == v then Some(Tally(Lookup(gs, v), v, s)) else Lookup(gs, u)
  {
    if gs != [] && gs[0].value != v {
      AddLookup(gs[1..], v, s, u);
    }
  }

  /** Adding a record adds one respondent to the breakdown. */
  lemma {:induction false} AddTotal(gs: seq<Group>, v: string, s: int)
    ensures TotalCount(Add(gs, v, s)) == TotalCount(gs) + 1
  {
    if gs != [] && gs[0].value != v {
      AddTotal(gs[1..], v, s);
    }
  }

  /** One more record changes the expected group of its own value only. */
  lemma ExpectedStep(rs: seq<Record>, d: Dimension)
    requires rs != []
    ensures var p, r := rs[..|rs| - 1], rs[|rs| - 1];
      forall u :: Expected(rs, d, u) ==
        if u == Category(r, d) then Some(Tally(Expected(p, d, u), u, r.policySupport)) else Expected(p, d, u)
  {
    var p, r := rs[..|rs| - 1], rs[|rs| - 1];
    forall u
      ensures Expected(rs, d, u) ==
        if u == Category(r, d) then Some(Tally(Expected(p, d, u), u, r.policySupport)) else Expected(p, d, u)
    {
      var m := Select(p, d, u);
      if u == Category(r, d) {
        assert Select(rs, d, u) == m + [r];
        assert (m + [r])[..|m|] == m;
        assert SupportSum(m + [r]) == SupportSum(m) + r.policySupport;
      } else {
        assert Select(rs, d, u) == m;
      }
    }
  }

  /** The group-by of one column, with pandas' count and mean aggregations:
      every observed value gets exactly one row carrying its group's size and
      mean support, and the sizes add up to the number of records. */
  function GroupBy(rs: seq<Record>, d: Dimension): (gs: seq<Group>)
    ensures DistinctValues(gs)
    ensures forall v :: Lookup(gs, v) == Expected(rs, d, v)
    ensures TotalCount(gs) == |rs|
  {
    if rs == [] then []
    else
      var r := rs[|rs| - 1];
      var prior := GroupBy(rs[..|rs| - 1], d);
      ExpectedStep(rs, d);
      AddDistinct(prior, Category(r, d), r.policySupport);
      AddTotal(prior, Category(r, d), r.policySupport);
      assert forall v :: Lookup(Add(prior, Category(r, d), r.policySupport), v) == Expected(rs, d, v) by {
        forall v {
          AddLookup(prior, Category(r, d), r.policySupport, v);
        }
      }
      Add(prior, Category(r, d), r.policySupport)
  }

  lemma {:induction false} LookupAt(gs: seq<Group>, i: nat)
    requires DistinctValues(gs) && i < |gs|
    ensures Lookup(gs, gs[i].value) == Some(gs[i])
  {
    if i > 0 {
      LookupAt(gs[1..], i - 1);
    }
  }

  lemma {:induction false} LookupFound(gs: seq<Group>, v: string)
    ensures Lookup(gs, v).Some? <==> v in Values(gs)
  {
    if gs != [] {
      LookupFound(gs[1..], v);
      assert Values(gs) == {gs[0].value} + Values(gs[1..]);
    }
  }

  lemma {:induction false} SelectNonEmpty(rs: seq<Record>, d: Dimension, v: string)
    ensures Select(rs, d, v) != [] <==> v in Observed(rs, d)
  {
    if rs != [] {
      var p, r := rs[..|rs| - 1], rs[|rs| - 1];
      SelectNonEmpty(p, d, v);
      assert rs == p + [r];
      ObservedSnoc(p, r, d);
    }
  }

  lemma ObservedSnoc(p: seq<Record>, r: Record, d: Dimension)
    ensures Observed(p + [r], d) == Observed(p, d) + {Category(r, d)}
  {
    assert forall x | x in p + [r] :: x in p || x == r;
  }

  lemma {:induction false} SelectKeepsBinary(rs: seq<Record>, d: Dimension, v: string)
    requires Binary(rs)
    ensures Binary(Select(rs, d, v))
  {
    if rs != [] {
      SelectKeepsBinary(rs[..|rs| - 1], d, v);
    }
  }

  /** The breakdown of a column lists exactly the observed values, each once;
      an empty dataset has an empty breakdown. */
  lemma ObservedValuesExactlyOnce(rs: seq<Record>, d: Dimension)
    ensures DistinctValues(GroupBy(rs, d))
    ensures Values(GroupBy(rs, d)) == Observed(rs, d)
    ensures rs == [] <==> GroupBy(rs, d) == []
  {
    var gs := GroupBy(rs, d);
    forall v
      ensures v in Values(gs) <==> v in Observed(rs, d)
    {
      LookupFound(gs, v);
      SelectNonEmpty(rs, d, v);
    }
  }

  /** Each row's count is the number of records with its value, at least one;
      its rate is their support sum over that count, and with 0/1 support
      values it is the group's supporters over its size, within [0, 1]. */
  lemma GroupRows(rs: seq<Record>, d: Dimension, i: nat)
    requires i < |GroupBy(rs, d)|
    ensures var g := GroupBy(rs, d)[i];
      var members := Select(rs, d, g.value);
      && g.respondentCount == |members| >= 1
      && g.supportRate == Rate(SupportSum(members), |members|)
      && (Binary(rs) ==> g.supportRate.num == Supporters(members) && InUnitInterval(g.supportRate))
  {
    var gs := GroupBy(rs, d);
    LookupAt(gs, i);
    if Binary(rs) {
      SelectKeepsBinary(rs, d, gs[i].value);
      SupportSumCountsSupporters(Select(rs, d, gs[i].value));
    }
  }

  lemma ExpectedPermutation(a: seq<Record>, b: seq<Record>, d: Dimension, v: string)
    requires multiset(a) == multiset(b)
    ensures Expected(a, d, v) == Expected(b, d, v)
  {
    var ma, mb := Select(a, d, v), Select(b, d, v);
    SelectPermutation(a, b, d, v);
    assert |ma| == |multiset(ma)| == |multiset(mb)| == |mb|;
    SupportSumPermutation(ma, mb);
  }

  /** Reordering the records changes no row: every value has the same count
      and rate (or the same absence) in both breakdowns. */
  lemma GroupByPermutation(a: seq<Record>, b: seq<Record>, d: Dimension)
    requires multiset(a) == multiset(b)
    ensures Values(GroupBy(a, d)) == Values(GroupBy(b, d))
    ensures forall v :: Lookup(GroupBy(a, d), v) == Lookup(GroupBy(b, d), v)
  {
    var ga, gb := GroupBy(a, d), GroupBy(b, d);
    forall v
      ensures Lookup(ga, v) == Lookup(gb, v)
      ensures v in Values(ga) <==> v in Values(gb)
    {
      ExpectedPermutation(a, b, d, v);
      LookupFound(ga, v);
      LookupFound(gb, v);
    }
  }

  lemma Singleton(r: Record, d: Dimension, v: string)
    ensures SupportSum([r]) == r.policySupport
    ensures Select([r], d, v) == if Category(r, d) == v then [r] else []
  {
    assert [r][..0] == [];
  }

  lemma PairSum(a: Record, b: Record)
    ensures SupportSum([a, b]) == a.policySupport + b.policySupport
  {
    assert [a, b] == [a] + [b];
    Singleton(a, Gender, "");
    Singleton(b, Gender, "");
    SupportSumAppend([a], [b]);
  }

  lemma PairSelect(a: Record, b: Record, d: Dimension, v: string)
    ensures Select([a, b], d, v) == Select([a], d, v) + Select([b], d, v)
  {
    assert [a, b] == [a] + [b];
    SelectAppend([a], [b], d, v);
  }

  /** Two records with the same value in a column fall in the same group. */
  lemma SameCategoryPair(a: Record, b: Record, d: Dimension, v: string)
    requires Category(a, d) == Category(b, d)
    ensures Select([a, b], d, v) == if Category(a, d) == v then [a, b] else []
  {
    PairSelect(a, b, d, v);
    Singleton(a, d, v);
    Singleton(b, d, v);
  }

  /** The four respondents of the example, split by gender. */
  lemma FourRespondentsGroups(m1: Record, m0: Record, f1: Record, f1': Record, male: string, female: string, v: string)
    requires m1.gender == m0.gender == male && f1.gender == f1'.gender == female
    ensures Select([m1, m0, f1, f1'], Gender, v) == (if v == male then [m1, m0] else []) + (if v == female then [f1, f1'] else [])
  {
    assert [m1, m0, f1, f1'] == [m1, m0] + [f1, f1'];
    SelectAppend([m1, m0], [f1, f1'], Gender, v);
    SameCategoryPair(m1, m0, Gender, v);
    SameCategoryPair(f1, f1', Gender, v);
  }

  /** Two respondents of one gender, one of them supporting, then two
      supporting respondents of another: overall 3 of 4; by gender, 1 of 2
      and 2 of 2, and no other row. */
  lemma FourRespondents(m1: Record, m0: Record, f1: Record, f1': Record, male: string, female: string)
    requires male != female
    requires m1.gender == m0.gender == male && f1.gender == f1'.gender == female
    requires m1.policySupport == f1.policySupport == f1'.policySupport == 1 && m0.policySupport == 0
    ensures var rs := [m1, m0, f1, f1'];
      var gs := GroupBy(rs, Gender);
      && Mean(rs) == Some(Rate(3, 4))
      && Values(gs) == {male, female}
      && Lookup(gs, male) == Some(Group(male, 2, Rate(1, 2)))
      && Lookup(gs, female) == Some(Group(female, 2, Rate(2, 2)))
  {
    var rs := [m1, m0, f1, f1'];
    var gs := GroupBy(rs, Gender);
    FourMean(m1, m0, f1, f1');
    FourRespondentsGroups(m1, m0, f1, f1', male, female, male);
    FourRespondentsGroups(m1, m0, f1, f1', male, female, female);
    assert Select(rs, Gender, male) == [m1, m0] && Select(rs, Gender, female) == [f1, f1'];
    PairSum(m1, m0);
    PairSum(f1, f1');
    assert Lookup(gs, male) == Expected(rs, Gender, male);
    assert Lookup(gs, female) == Expected(rs, Gender, female);
    ObservedValuesExactlyOnce(rs, Gender);
    TwoGenders(m1, m0, f1, f1', male, female);
  }

  lemma FourMean(m1: Record, m0: Record, f1: Record, f1': Record)
    requires m1.policySupport == f1.policySupport == f1'.policySupport == 1 && m0.policySupport == 0
    ensures Mean([m1, m0, f1, f1']) == Some(Rate(3, 4))
  {
    assert [m1, m0, f1, f1'] == [m1, m0] + [f1, f1'];
    PairSum(m1, m0);
    PairSum(f1, f1');
    SupportSumAppend([m1, m0], [f1, f1']);
  }

  lemma TwoGenders(m1: Record, m0: Record, f1: Record, f1': Record, male: string, female: string)
    requires m1.gender == m0.gender == male && f1.gender == f1'.gender == female
    ensures Observed([m1, m0, f1, f1'], Gender) == {male, female}
  {
    var rs := [m1, m0, f1, f1'];
    assert forall r | r in rs :: Category(r, Gender) == male || Category(r, Gender) == female;
    assert m1 in rs && f1 in rs;
  }

  /** Computes the summary: the overall mean support, then one group-by per
      demographic column, stored under that column. */
  method Transform(rs: seq<Record>) returns (summary: Summary)
    ensures summary.overallSupportRate == Mean(rs)
    ensures forall d: Dimension :: d in summary.breakdowns && summary.breakdowns[d] == GroupBy(rs, d)
    ensures forall d: Dimension :: d in summary.breakdowns ==> TotalCount(summary.breakdowns[d]) == |rs|
    ensures rs == [] ==> summary.overallSupportRate == None && forall d: Dimension :: d in summary.breakdowns ==> summary.breakdowns[d] == []
  {
    var overall := Mean(rs);
    var breakdowns: map<Dimension, seq<Group>> := map[];
    for i := 0 to |Dimensions|
      invariant forall k :: 0 <= k < i ==> Dimensions[k] in breakdowns && breakdowns[Dimensions[k]] == GroupBy(rs, Dimensions[k])
    {
      var col := Dimensions[i];
      breakdowns := breakdowns[col := GroupBy(rs, col)];
    }
    forall d: Dimension
      ensures d in breakdowns && breakdowns[d] == GroupBy(rs, d)
    {
      assert d == Dimensions[0] || d == Dimensions[1] || d == Dimensions[2] || d == Dimensions[3] || d == Dimensions[4];
    }
    summary := Summary(overall, breakdowns);
  }
}

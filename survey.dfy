/** Survey records, the five demographic dimensions, exact support rates and
    the column statistics that the aggregation step is specified by. */
module Survey {

  datatype Option<+T> = None | Some(value: T)

  /** The demographic columns the pipeline breaks support down by. */
  datatype Dimension = Gender | Race | AgeGroup | Education | Income

  /** The breakdown order: the list the aggregation loops over and the report
      prints its sections in. */
  const Dimensions: seq<Dimension> := [Gender, Race, AgeGroup, Education, Income]

  /** The column name of a dimension, as it heads the report section. */
  function ColumnName(d: Dimension): string
  {
    match d
    case Gender => "gender"
    case Race => "race"
    case AgeGroup => "age_group"
    case Education => "education"
    case Income => "income"
  }

  /** One parsed row of a survey file. `policySupport` is the raw integer
      column; the data is expected to hold only 0 and 1 there. */
  datatype Record = Record(
    respondentId: string,
    ageGroup: string,
    gender: string,
    race: string,
    education: string,
    income: string,
    policySupport: int)

  /** The value of a record in one demographic column. */
  function Category(r: Record, d: Dimension): string
  {
    match d
    case Gender => r.gender
    case Race => r.race
    case AgeGroup => r.ageGroup
    case Education => r.education
    case Income => r.income
  }

  /** An exact fraction num/den, standing for a floating-point mean. */
  datatype Rate = Rate(num: int, den: nat)

  predicate InUnitInterval(q: Rate)
  {
    0 < q.den && 0 <= q.num <= q.den
  }

  /** Every record's support value is 0 or 1. */
  predicate Binary(rs: seq<Record>)
  {
    forall i :: 0 <= i < |rs| ==> rs[i].policySupport == 0 || rs[i].policySupport == 1
  }

  /** The sum of the `policy_support` column. */
  function SupportSum(rs: seq<Record>): int
  {
    if rs == [] then 0 else SupportSum(rs[..|rs| - 1]) + rs[|rs| - 1].policySupport
  }

  /** The number of records whose support value is exactly 1. */
  function Supporters(rs: seq<Record>): nat
  {
    if rs == [] then 0
    else Supporters(rs[..|rs| - 1]) + (if rs[|rs| - 1].policySupport == 1 then 1 else 0)
  }

  /** The records whose value in column `d` is `v`, in input order. */
  function Select(rs: seq<Record>, d: Dimension, v: string): seq<Record>
  {
    if rs == [] then []
    else Select(rs[..|rs| - 1], d, v) + (if Category(rs[|rs| - 1], d) == v then [rs[|rs| - 1]] else [])
  }

  /** The set of values observed in column `d`. */
  function Observed(rs: seq<Record>, d: Dimension): set<string>
  {
    set r | r in rs :: Category(r, d)
  }

  /** The mean of the `policy_support` column: sum over count, and no number
      at all (pandas' NaN) when there are no records. */
  function Mean(rs: seq<Record>): Option<Rate>
  {
    if rs == [] then None else Some(Rate(SupportSum(rs), |rs|))
  }

  lemma {:induction false} SupportSumAppend(a: seq<Record>, b: seq<Record>)
    ensures SupportSum(a + b) == SupportSum(a) + SupportSum(b)
    decreases |b|
  {
    if b == [] {
      assert a + b == a;
    } else {
      var b' := b[..|b| - 1];
      assert (a + b)[..|a + b| - 1] == a + b';
      SupportSumAppend(a, b');
    }
  }

  lemma {:induction false} SelectAppend(a: seq<Record>, b: seq<Record>, d: Dimension, v: string)
    ensures Select(a + b, d, v) == Select(a, d, v) + Select(b, d, v)
    decreases |b|
  {
    if b == [] {
      assert a + b == a;
    } else {
      var b' := b[..|b| - 1];
      assert (a + b)[..|a + b| - 1] == a + b';
      SelectAppend(a, b', d, v);
    }
  }

  /** With 0/1 support values the column sum counts the supporters, which
      are at most all records. */
  lemma {:induction false} SupportSumCountsSupporters(rs: seq<Record>)
    requires Binary(rs)
    ensures SupportSum(rs) == Supporters(rs) <= |rs|
  {
    if rs != [] {
      SupportSumCountsSupporters(rs[..|rs| - 1]);
    }
  }

  /** A group holds exactly the records of that value, so its size is the
      multiplicity of those records in the input. */
  lemma {:induction false} SelectMultiset(rs: seq<Record>, d: Dimension, v: string, r: Record)
    ensures multiset(Select(rs, d, v))[r] == if Category(r, d) == v then multiset(rs)[r] else 0
  {
    if rs != [] {
      var p := rs[..|rs| - 1];
      assert rs == p + [rs[|rs| - 1]];
      SelectMultiset(p, d, v, r);
    }
  }

  lemma SelectPermutation(a: seq<Record>, b: seq<Record>, d: Dimension, v: string)
    requires multiset(a) == multiset(b)
    ensures multiset(Select(a, d, v)) == multiset(Select(b, d, v))
  {
    forall r: Record
      ensures multiset(Select(a, d, v))[r] == multiset(Select(b, d, v))[r]
    {
      SelectMultiset(a, d, v, r);
      SelectMultiset(b, d, v, r);
    }
  }

  /** A sequence cut around its `i`-th record. */
  lemma SplitAround(b: seq<Record>, i: nat)
    requires i < |b|
    ensures b == b[..i] + ([b[i]] + b[i + 1..])
  {
  }

  /** Taking out the record at position `i` takes one copy of it out of the
      multiset of records. */
  lemma MultisetRemoveAt(b: seq<Record>, i: nat)
    requires i < |b|
    ensures multiset(b[..i] + b[i + 1..]) == multiset(b) - multiset{b[i]}
  {
    SplitAround(b, i);
  }

  lemma SupportSumCons(x: Record, rest: seq<Record>)
    ensures SupportSum([x] + rest) == x.policySupport + SupportSum(rest)
  {
    SupportSumAppend([x], rest);
    assert [x][..0] == [];
  }

  /** Taking out the record at position `i` takes its support value out of
      the column sum. */
  lemma SupportSumRemoveAt(b: seq<Record>, i: nat)
    requires i < |b|
    ensures SupportSum(b) == SupportSum(b[..i] + b[i + 1..]) + b[i].policySupport
  {
    SplitAround(b, i);
    SupportSumAppend(b[..i], [b[i]] + b[i + 1..]);
    SupportSumCons(b[i], b[i + 1..]);
    SupportSumAppend(b[..i], b[i + 1..]);
  }

  /** The column sum does not depend on the order of the records. */
  lemma {:induction false} SupportSumPermutation(a: seq<Record>, b: seq<Record>)
    requires multiset(a) == multiset(b)
    ensures SupportSum(a) == SupportSum(b)
    decreases |a|
  {
    if a != [] {
      var a', x := a[..|a| - 1], a[|a| - 1];
      assert a == a' + [x];
      assert x in multiset(b);
      var i :| 0 <= i < |b| && b[i] == x;
      MultisetRemoveAt(b, i);
      SupportSumRemoveAt(b, i);
      assert multiset(a') == multiset(a) - multiset{x};
      SupportSumPermutation(a', b[..i] + b[i + 1..]);
    }
  }

  /** The overall rate: undefined exactly for the empty dataset, otherwise
      the column sum over the number of respondents; with 0/1 support values
      that is supporters over respondents, a fraction in [0, 1]. */
  lemma OverallRate(rs: seq<Record>)
    ensures Mean(rs) == None <==> rs == []
    ensures rs != [] ==> Mean(rs) == Some(Rate(SupportSum(rs), |rs|))
    ensures Binary(rs) && rs != [] ==> Mean(rs) == Some(Rate(Supporters(rs), |rs|)) && InUnitInterval(Mean(rs).value)
  {
    if Binary(rs) {
      SupportSumCountsSupporters(rs);
    }
  }

  /** The overall rate depends only on the multiset of records. */
  lemma MeanPermutation(a: seq<Record>, b: seq<Record>)
    requires multiset(a) == multiset(b)
    ensures Mean(a) == Mean(b)
  {
    assert |a| == |multiset(a)| == |multiset(b)| == |b|;
    SupportSumPermutation(a, b);
  }
}

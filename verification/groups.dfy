/** The group-by of the trend monitor: facts grouped by their key values,
    a conditional quantity sum per group, and the latest date per group.
    Rows whose key has a missing value belong to no group, as pandas'
    group-by drops them. */
module Groups {

  import opened Wrappers
  import opened Table

  /** A fact row as the trend monitor reads it: the values of its key
      columns, its date, and its quantity. */
  datatype Fact = Fact(key: seq<Cell>, date: Option<Date>, qty: int)

  /** A key with no missing value: only such keys form groups. */
  predicate Grouped(key: seq<Cell>) {
    forall k :: 0 <= k < |key| ==> key[k] != Null
  }

  /** The distinct grouped keys, in order of first appearance. */
  function Keys(facts: seq<Fact>): (ks: seq<seq<Cell>>)
    ensures |ks| <= |facts|
    ensures forall a, b :: 0 <= a < b < |ks| ==> ks[a] != ks[b]
    ensures forall k :: 0 <= k < |ks| ==> Grouped(ks[k]) && exists i :: 0 <= i < |facts| && facts[i].key == ks[k]
    ensures forall i :: 0 <= i < |facts| && Grouped(facts[i].key) ==> facts[i].key in ks
  {
    if |facts| == 0 then []
    else
      var n := |facts| - 1;
      var ks := Keys(facts[..n]);
      var key := facts[n].key;
      if Grouped(key) && key !in ks then ks + [key] else ks
  }

  /** What one fact adds to the sum of group key under condition q. */
  function Share(x: Fact, key: seq<Cell>, q: Option<Date> -> bool): int {
    if x.key == key && q(x.date) then x.qty else 0
  }

  /** The quantities of group key's facts whose date satisfies q, summed. */
  function SumWhere(facts: seq<Fact>, key: seq<Cell>, q: Option<Date> -> bool): int {
    if |facts| == 0 then 0
    else SumWhere(facts[..|facts| - 1], key, q) + Share(facts[|facts| - 1], key, q)
  }

  /** The quantities of all grouped facts whose date satisfies q, summed. */
  function SumGrouped(facts: seq<Fact>, q: Option<Date> -> bool): int {
    if |facts| == 0 then 0
    else
      var x := facts[|facts| - 1];
      SumGrouped(facts[..|facts| - 1], q) + (if Grouped(x.key) && q(x.date) then x.qty else 0)
  }

  /** The per-group sums of the listed keys, added up. */
  function SumOver(ks: seq<seq<Cell>>, facts: seq<Fact>, q: Option<Date> -> bool): int {
    if |ks| == 0 then 0
    else SumOver(ks[..|ks| - 1], facts, q) + SumWhere(facts, ks[|ks| - 1], q)
  }

  /** A group none of whose facts has a date satisfying q sums to zero. */
  lemma {:induction false} SumWhereAbsent(facts: seq<Fact>, key: seq<Cell>, q: Option<Date> -> bool)
    requires forall i :: 0 <= i < |facts| ==> facts[i].key != key || !q(facts[i].date)
    ensures SumWhere(facts, key, q) == 0
  {
    if |facts| > 0 {
      SumWhereAbsent(facts[..|facts| - 1], key, q);
    }
  }

  /** One more fact adds its share to every group sum. */
  lemma SumWhereSnoc(facts: seq<Fact>, x: Fact, key: seq<Cell>, q: Option<Date> -> bool)
    ensures SumWhere(facts + [x], key, q) == SumWhere(facts, key, q) + Share(x, key, q)
  {
    assert (facts + [x])[..|facts|] == facts;
  }

  /** One more fact adds its quantity, once, to the sum over distinct keys
      when its key is among them and its date satisfies q. */
  lemma {:induction false} SumOverSnoc(ks: seq<seq<Cell>>, facts: seq<Fact>, x: Fact, q: Option<Date> -> bool)
    requires forall a, b :: 0 <= a < b < |ks| ==> ks[a] != ks[b]
    ensures SumOver(ks, facts + [x], q) == SumOver(ks, facts, q) + (if x.key in ks && q(x.date) then x.qty else 0)
  {
    if |ks| > 0 {
      var m := |ks| - 1;
      SumOverSnoc(ks[..m], facts, x, q);
      SumWhereSnoc(facts, x, ks[m], q);
      assert ks == ks[..m] + [ks[m]];
      assert x.key in ks <==> x.key in ks[..m] || x.key == ks[m];
      assert x.key == ks[m] ==> x.key !in ks[..m];
    }
  }

  /** One more fact adds its key to the keys when it is grouped and new. */
  lemma KeysSnoc(p: seq<Fact>, x: Fact)
    ensures Keys(p + [x]) == if Grouped(x.key) && x.key !in Keys(p) then Keys(p) + [x.key] else Keys(p)
  {
    assert (p + [x])[..|p|] == p;
  }

  /** Nothing is lost or counted twice: the group sums add up to the sum
      over every grouped fact. */
  lemma {:induction false} GroupSumsCoverFacts(facts: seq<Fact>, q: Option<Date> -> bool)
    ensures SumOver(Keys(facts), facts, q) == SumGrouped(facts, q)
  {
    if |facts| > 0 {
      var n := |facts| - 1;
      assert facts[..n] + [facts[n]] == facts;
      GroupSumsCoverFacts(facts[..n], q);
      GroupSumsStep(facts[..n], facts[n], q);
    }
  }

  /** The step of the above: one more fact keeps the group sums and the
      grouped sum equal. */
  lemma GroupSumsStep(p: seq<Fact>, x: Fact, q: Option<Date> -> bool)
    requires SumOver(Keys(p), p, q) == SumGrouped(p, q)
    ensures SumOver(Keys(p + [x]), p + [x], q) == SumGrouped(p + [x], q)
  {
    SumGroupedSnoc(p, x, q);
    if Grouped(x.key) && x.key !in Keys(p) {
      NewKeyStep(p, x, q);
    } else {
      OldKeyStep(p, x, q);
    }
  }

  /** One more fact adds its quantity to the grouped sum when its key is
      complete and its date satisfies q. */
  lemma SumGroupedSnoc(p: seq<Fact>, x: Fact, q: Option<Date> -> bool)
    ensures SumGrouped(p + [x], q) == SumGrouped(p, q) + (if Grouped(x.key) && q(x.date) then x.qty else 0)
  {
    assert (p + [x])[..|p|] == p;
  }

  /** A fact with a new grouped key opens a group holding its share alone. */
  lemma NewKeyStep(p: seq<Fact>, x: Fact, q: Option<Date> -> bool)
    requires Grouped(x.key) && x.key !in Keys(p)
    ensures SumOver(Keys(p + [x]), p + [x], q) == SumOver(Keys(p), p, q) + (if q(x.date) then x.qty else 0)
  {
    var ks := Keys(p);
    KeysSnoc(p, x);
    SumOverSnoc(ks, p, x, q);
    SumWhereSnoc(p, x, x.key, q);
    SumWhereAbsent(p, x.key, q);
  }

  /** A fact whose key is missing a value or already has a group adds its
      share to that group, if any. */
  lemma OldKeyStep(p: seq<Fact>, x: Fact, q: Option<Date> -> bool)
    requires !(Grouped(x.key) && x.key !in Keys(p))
    ensures SumOver(Keys(p + [x]), p + [x], q) == SumOver(Keys(p), p, q) + (if Grouped(x.key) && q(x.date) then x.qty else 0)
  {
    var ks := Keys(p);
    KeysSnoc(p, x);
    SumOverSnoc(ks, p, x, q);
    if !Grouped(x.key) {
      assert x.key !in ks;
    }
  }

  /** The latest date among the facts p holds of, if any has one. */
  function LatestWhere(facts: seq<Fact>, p: Fact -> bool): (r: Option<Date>)
    ensures r.None? <==> forall i :: 0 <= i < |facts| && p(facts[i]) ==> facts[i].date.None?
    ensures r.Some? ==> exists i :: 0 <= i < |facts| && p(facts[i]) && facts[i].date == r
    ensures r.Some? ==> forall i :: 0 <= i < |facts| && p(facts[i]) && facts[i].date.Some? ==> facts[i].date.value <= r.value
  {
    if |facts| == 0 then None
    else
      var n := |facts| - 1;
      var rest := LatestWhere(facts[..n], p);
      var x := facts[n];
      if !p(x) || x.date.None? then rest
      else if rest.Some? && x.date.value <= rest.value then rest
      else x.date
  }

  /** Membership in group key. */
  function InGroup(key: seq<Cell>): Fact -> bool {
    (x: Fact) => x.key == key
  }

  /** Any fact at all. */
  function AnyFact(): Fact -> bool {
    (x: Fact) => true
  }
}

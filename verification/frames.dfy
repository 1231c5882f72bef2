/** Data frames as immutable sequences of labelled rows, and the few frame
    operations the pipeline uses: row filtering (`df.query`), column
    assignment and `reset_index(drop=True)`. */
module Frames {

  /** One row of a frame together with the index label pandas keeps for it. */
  datatype Labeled<R> = Labeled(index: int, row: R)

  /** A frame: its rows in order, each with its index label. */
  type Frame<R> = seq<Labeled<R>>

  function RowOf<R>(e: Labeled<R>): R {
    e.row
  }

  /** `h` applied to every element, order kept. */
  function Project<A, B>(s: seq<A>, h: A -> B): (r: seq<B>)
    ensures |r| == |s|
    ensures forall i :: 0 <= i < |s| ==> r[i] == h(s[i])
  {
    seq(|s|, i requires 0 <= i < |s| => h(s[i]))
  }

  /** The rows of a frame without their labels. */
  function Rows<R>(f: Frame<R>): (rs: seq<R>)
    ensures |rs| == |f|
    ensures forall i :: 0 <= i < |f| ==> rs[i] == f[i].row
  {
    Project(f, RowOf)
  }

  /** `a` is `b` with some elements deleted and the rest kept in their order. */
  predicate SubseqOf<T(==)>(a: seq<T>, b: seq<T>)
    decreases |b|
  {
    || |a| == 0
    || (|b| > 0 && ((a[0] == b[0] && SubseqOf(a[1..], b[1..])) || SubseqOf(a, b[1..])))
  }

  /** How many elements of `s` satisfy `p`, counting repeats. */
  function Count<T>(s: seq<T>, p: T -> bool): (n: nat)
    ensures n <= |s|
  {
    if |s| == 0 then 0 else (if p(s[0]) then 1 else 0) + Count(s[1..], p)
  }

  /** Labels are the positions 0..n-1, as after `reset_index(drop=True)`. */
  predicate Contiguous<R>(f: Frame<R>) {
    forall i :: 0 <= i < |f| ==> f[i].index == i
  }

  /** Every predicate of `rules` holds of `x`. */
  predicate AllHold<R>(rules: seq<R -> bool>, x: R) {
    forall i :: 0 <= i < |rules| ==> rules[i](x)
  }

  /** `df.query(p)`: keeps exactly the rows satisfying `p`, with their labels, in order,
      each occurrence of a repeated row counted on its own. */
  function Query<R(==,!new)>(f: Frame<R>, p: R -> bool): (g: Frame<R>)
    ensures SubseqOf(g, f)
    ensures forall e :: e in g <==> e in f && p(e.row)
  {
    if |f| == 0 then []
    else
      assert f == [f[0]] + f[1..];
      if p(f[0].row) then [f[0]] + Query(f[1..], p) else Query(f[1..], p)
  }

  /** A query keeps one row for every row satisfying `p`, repeated rows included; with
      `FullCountSubseqIsUnique` this pins its result down completely. */
  lemma {:induction false} QueryCount<R(!new)>(f: Frame<R>, p: R -> bool)
    ensures |Query(f, p)| == Count(Rows(f), p)
    decreases |f|
  {
    if |f| > 0 {
      QueryCount(f[1..], p);
      assert Rows(f)[1..] == Rows(f[1..]);
    }
  }

  /** The conjunction of `rules` as a single predicate. */
  function Conj<R>(rules: seq<R -> bool>): R -> bool {
    x => AllHold(rules, x)
  }

  /** The successive narrowing passes `df.query(rules[0])`, `df.query(rules[1])`, ... */
  function QueryAll<R(==,!new)>(f: Frame<R>, rules: seq<R -> bool>): (g: Frame<R>)
    ensures SubseqOf(g, f)
    ensures forall e :: e in g <==> e in f && AllHold(rules, e.row)
    decreases |rules|
  {
    if |rules| == 0 then
      SubseqRefl(f);
      f
    else
      var once := Query(f, rules[0]);
      var g := QueryAll(once, rules[1..]);
      SubseqTrans(g, once, f);
      forall x ensures AllHold(rules, x) <==> rules[0](x) && AllHold(rules[1..], x) {
        AllHoldCons(rules, x);
      }
      g
  }

  /** The successive passes keep one row for every row satisfying all of the rules,
      repeated rows included. */
  lemma {:induction false} QueryAllCount<R(!new)>(f: Frame<R>, rules: seq<R -> bool>)
    ensures |QueryAll(f, rules)| == Count(Rows(f), Conj(rules))
    decreases |rules|
  {
    if |rules| == 0 {
      CountOfAll(Rows(f), Conj(rules));
    } else {
      var once := Query(f, rules[0]);
      QueryAllCount(once, rules[1..]);
      forall i | 0 <= i < |f|
        ensures Conj(rules)(f[i].row) <==> rules[0](f[i].row) && Conj(rules[1..])(f[i].row)
      {
        AllHoldCons(rules, f[i].row);
      }
      CountAfterQuery(f, rules[0], Conj(rules[1..]), Conj(rules));
    }
  }

  /** The one-pass alternative: each row must pass the whole conjunction at once. */
  function QueryEvery<R(==)>(f: Frame<R>, rules: seq<R -> bool>): Frame<R> {
    if |f| == 0 then []
    else if AllHold(rules, f[0].row) then [f[0]] + QueryEvery(f[1..], rules)
    else QueryEvery(f[1..], rules)
  }

  /** `reset_index(drop=True)`: same rows in the same order, labels renumbered from 0. */
  function ResetIndex<R>(f: Frame<R>): (g: Frame<R>)
    ensures Contiguous(g)
    ensures Rows(g) == Rows(f)
  {
    seq(|f|, i requires 0 <= i < |f| => Labeled(i, f[i].row))
  }

  /** Assigning a derived column: `h` rewrites every row, labels untouched. */
  function Assign<A, B>(f: Frame<A>, h: A -> B): (g: Frame<B>)
    ensures |g| == |f|
    ensures forall i :: 0 <= i < |f| ==> g[i] == Labeled(f[i].index, h(f[i].row))
    ensures Rows(g) == Project(Rows(f), h)
  {
    seq(|f|, i requires 0 <= i < |f| => Labeled(f[i].index, h(f[i].row)))
  }

  /** A predicate every element satisfies counts every element. */
  lemma {:induction false} CountOfAll<T>(s: seq<T>, p: T -> bool)
    requires forall i :: 0 <= i < |s| ==> p(s[i])
    ensures Count(s, p) == |s|
    decreases |s|
  {
    if |s| > 0 {
      CountOfAll(s[1..], p);
    }
  }

  /** Counting after a query counts the rows that pass both the query and the counted
      predicate. */
  lemma {:induction false} CountAfterQuery<R(!new)>(f: Frame<R>, p: R -> bool, q: R -> bool, c: R -> bool)
    requires forall i :: 0 <= i < |f| ==> (c(f[i].row) <==> p(f[i].row) && q(f[i].row))
    ensures Count(Rows(Query(f, p)), q) == Count(Rows(f), c)
    decreases |f|
  {
    if |f| > 0 {
      CountAfterQuery(f[1..], p, q, c);
      assert Rows(f)[1..] == Rows(f[1..]);
      if p(f[0].row) {
        var g := Query(f, p);
        assert g == [f[0]] + Query(f[1..], p);
        assert Rows(g)[1..] == Rows(Query(f[1..], p));
      }
    }
  }

  /** The same, when a column is derived from the queried rows before counting. */
  lemma {:induction false} CountAfterQueryDerived<A(!new), B>(f: Frame<A>, p: A -> bool, h: A -> B, q: B -> bool, c: B -> bool)
    requires forall i :: 0 <= i < |f| ==> (c(h(f[i].row)) <==> p(f[i].row) && q(h(f[i].row)))
    ensures Count(Project(Rows(Query(f, p)), h), q) == Count(Project(Rows(f), h), c)
    decreases |f|
  {
    if |f| > 0 {
      CountAfterQueryDerived(f[1..], p, h, q, c);
      assert Project(Rows(f), h)[1..] == Project(Rows(f[1..]), h);
      if p(f[0].row) {
        var g := Query(f, p);
        assert g == [f[0]] + Query(f[1..], p);
        assert Project(Rows(g), h)[1..] == Project(Rows(Query(f[1..], p)), h);
      }
    }
  }

  /** Two sequences whose elements pass their predicates at the same positions have the
      same count. */
  lemma {:induction false} CountPointwise<S, T>(s: seq<S>, p: S -> bool, t: seq<T>, q: T -> bool)
    requires |s| == |t|
    requires forall i :: 0 <= i < |s| ==> (p(s[i]) <==> q(t[i]))
    ensures Count(s, p) == Count(t, q)
    decreases |s|
  {
    if |s| > 0 {
      CountPointwise(s[1..], p, t[1..], q);
    }
  }

  /** A subsequence all of whose elements satisfy `p` is at most as long as the count. */
  lemma {:induction false} SubseqCountBound<T>(a: seq<T>, s: seq<T>, p: T -> bool)
    requires SubseqOf(a, s)
    requires forall i :: 0 <= i < |a| ==> p(a[i])
    ensures |a| <= Count(s, p)
    decreases |s|
  {
    if |a| > 0 {
      if a[0] == s[0] && SubseqOf(a[1..], s[1..]) {
        SubseqCountBound(a[1..], s[1..], p);
      } else {
        SubseqCountBound(a, s[1..], p);
      }
    }
  }

  /** The count pins a filter down: two subsequences of `s` that consist of elements
      satisfying `p` and are as long as the count of `s` are the same sequence. So the
      length clause of `Query`, with its subsequence and membership clauses, leaves the
      rows that pass, each as often as it occurs, as the only possible result. */
  lemma {:induction false} FullCountSubseqIsUnique<T>(a: seq<T>, b: seq<T>, s: seq<T>, p: T -> bool)
    requires SubseqOf(a, s) && SubseqOf(b, s)
    requires forall i :: 0 <= i < |a| ==> p(a[i])
    requires forall i :: 0 <= i < |b| ==> p(b[i])
    requires |a| == Count(s, p) && |b| == Count(s, p)
    ensures a == b
    decreases |s|
  {
    if |a| > 0 {
      FullCountSubseqHead(a, s, p);
      FullCountSubseqHead(b, s, p);
      if p(s[0]) {
        FullCountSubseqIsUnique(a[1..], b[1..], s[1..], p);
        assert a == [a[0]] + a[1..] && b == [b[0]] + b[1..];
      } else {
        FullCountSubseqIsUnique(a, b, s[1..], p);
      }
    }
  }

  /** How a full-count subsequence starts: with the first element of `s` when that one
      passes, and otherwise inside the rest of `s`. */
  lemma FullCountSubseqHead<T>(a: seq<T>, s: seq<T>, p: T -> bool)
    requires SubseqOf(a, s) && 0 < |a|
    requires forall i :: 0 <= i < |a| ==> p(a[i])
    requires |a| == Count(s, p)
    ensures |s| > 0
    ensures p(s[0]) ==> a[0] == s[0] && SubseqOf(a[1..], s[1..]) && |a[1..]| == Count(s[1..], p)
    ensures !p(s[0]) ==> SubseqOf(a, s[1..]) && |a| == Count(s[1..], p)
  {
    if p(s[0]) {
      if !(a[0] == s[0] && SubseqOf(a[1..], s[1..])) {
        SubseqCountBound(a, s[1..], p);
        assert false;
      }
    }
  }

  /** A conjunction of rules splits into its first rule and the rest. */
  lemma AllHoldCons<R>(rules: seq<R -> bool>, x: R)
    requires |rules| > 0
    ensures AllHold(rules, x) <==> rules[0](x) && AllHold(rules[1..], x)
  {
    if rules[0](x) && AllHold(rules[1..], x) {
      forall i | 0 <= i < |rules| ensures rules[i](x) {
        if i > 0 {
          assert rules[1..][i - 1] == rules[i];
        }
      }
    }
  }

  lemma {:induction false} SubseqRefl<T>(s: seq<T>)
    ensures SubseqOf(s, s)
    decreases |s|
  {
    if |s| > 0 {
      SubseqRefl(s[1..]);
    }
  }

  lemma {:induction false} SubseqTrans<T>(a: seq<T>, b: seq<T>, c: seq<T>)
    requires SubseqOf(a, b) && SubseqOf(b, c)
    ensures SubseqOf(a, c)
    decreases |c|
  {
    if |a| > 0 {
      if |c| > 0 && b[0] == c[0] && SubseqOf(b[1..], c[1..]) {
        if a[0] == b[0] && SubseqOf(a[1..], b[1..]) {
          SubseqTrans(a[1..], b[1..], c[1..]);
        } else {
          SubseqTrans(a, b[1..], c[1..]);
        }
      } else {
        SubseqTrans(a, b, c[1..]);
      }
    }
  }

  /** A subsequence stays a subsequence when both sides are mapped by the same function. */
  lemma {:induction false} SubseqProject<A, B>(a: seq<A>, b: seq<A>, h: A -> B)
    requires SubseqOf(a, b)
    ensures SubseqOf(Project(a, h), Project(b, h))
    decreases |b|
  {
    var pa, pb := Project(a, h), Project(b, h);
    if |a| > 0 {
      assert Project(b[1..], h) == pb[1..];
      if a[0] == b[0] && SubseqOf(a[1..], b[1..]) {
        SubseqProject(a[1..], b[1..], h);
        assert Project(a[1..], h) == pa[1..];
      } else {
        SubseqProject(a, b[1..], h);
      }
    }
  }

  /** Dropping labels keeps the subsequence relation between two frames. */
  lemma SubseqRows<R>(g: Frame<R>, f: Frame<R>)
    requires SubseqOf(g, f)
    ensures SubseqOf(Rows(g), Rows(f))
  {
    SubseqProject(g, f, RowOf);
  }

  /** A query removes nothing from a frame all of whose rows already satisfy it. */
  lemma {:induction false} QueryKeepsAll<R(!new)>(f: Frame<R>, p: R -> bool)
    requires forall i :: 0 <= i < |f| ==> p(f[i].row)
    ensures Query(f, p) == f
    decreases |f|
  {
    if |f| > 0 {
      QueryKeepsAll(f[1..], p);
    }
  }

  /** A one-pass test against the conjunction of no rules keeps the frame whole. */
  lemma {:induction false} QueryEveryNoRules<R>(f: Frame<R>, rules: seq<R -> bool>)
    requires |rules| == 0
    ensures QueryEvery(f, rules) == f
    decreases |f|
  {
    if |f| > 0 {
      QueryEveryNoRules(f[1..], rules);
    }
  }

  /** Narrowing by `rules[0]` and then one pass with the rest is one pass with all of them. */
  lemma {:induction false} QueryThenEvery<R(!new)>(f: Frame<R>, rules: seq<R -> bool>)
    requires |rules| > 0
    ensures QueryEvery(Query(f, rules[0]), rules[1..]) == QueryEvery(f, rules)
    decreases |f|
  {
    if |f| > 0 {
      QueryThenEvery(f[1..], rules);
      AllHoldCons(rules, f[0].row);
    }
  }

  /** The ordered narrowing passes and the single conjunctive pass produce the same frame:
      the order of the predicates does not matter, only their conjunction. */
  lemma {:induction false} QueryAllIsOnePass<R(!new)>(f: Frame<R>, rules: seq<R -> bool>)
    ensures QueryAll(f, rules) == QueryEvery(f, rules)
    decreases |rules|
  {
    if |rules| == 0 {
      QueryEveryNoRules(f, rules);
    } else {
      QueryAllIsOnePass(Query(f, rules[0]), rules[1..]);
      QueryThenEvery(f, rules);
    }
  }

  /** The one-pass test against all rules is a single query with their conjunction. */
  lemma {:induction false} QueryEveryIsQuery<R(!new)>(f: Frame<R>, rules: seq<R -> bool>)
    ensures QueryEvery(f, rules) == Query(f, Conj(rules))
    decreases |f|
  {
    if |f| > 0 {
      QueryEveryIsQuery(f[1..], rules);
    }
  }

  /** The successive passes are one query with the conjunction of the rules. */
  lemma QueryAllIsQuery<R(!new)>(f: Frame<R>, rules: seq<R -> bool>)
    ensures QueryAll(f, rules) == Query(f, Conj(rules))
  {
    QueryAllIsOnePass(f, rules);
    QueryEveryIsQuery(f, rules);
  }

  /** Every element of a subsequence comes from the sequence it was taken from. */
  lemma {:induction false} SubseqMember<T>(a: seq<T>, b: seq<T>, j: int)
    requires SubseqOf(a, b) && 0 <= j < |a|
    ensures exists k :: 0 <= k < |b| && a[j] == b[k]
    decreases |b|
  {
    if a[0] == b[0] && SubseqOf(a[1..], b[1..]) {
      if j > 0 {
        SubseqMember(a[1..], b[1..], j - 1);
        var k :| 0 <= k < |b[1..]| && a[1..][j - 1] == b[1..][k];
        assert a[j] == b[k + 1];
      } else {
        assert a[j] == b[0];
      }
    } else {
      SubseqMember(a, b[1..], j);
      var k :| 0 <= k < |b[1..]| && a[j] == b[1..][k];
      assert a[j] == b[k + 1];
    }
  }

  /** Resetting the index of a frame already labelled 0..n-1 changes nothing. */
  lemma ResetIndexOfContiguous<R>(f: Frame<R>)
    requires Contiguous(f)
    ensures ResetIndex(f) == f
  {
    assert forall i :: 0 <= i < |f| ==> ResetIndex(f)[i] == f[i];
  }

  /** Rules joined end to end hold exactly when both parts hold. */
  lemma AllHoldAppend<R>(a: seq<R -> bool>, b: seq<R -> bool>, x: R)
    ensures AllHold(a + b, x) <==> AllHold(a, x) && AllHold(b, x)
  {
    if AllHold(a, x) && AllHold(b, x) {
      forall i | 0 <= i < |a + b| ensures (a + b)[i](x) {
        if i >= |a| {
          assert (a + b)[i] == b[i - |a|];
        }
      }
    }
    if AllHold(a + b, x) {
      forall i | 0 <= i < |a| ensures a[i](x) {
        assert (a + b)[i] == a[i];
      }
      forall i | 0 <= i < |b| ensures b[i](x) {
        assert (a + b)[|a| + i] == b[i];
      }
    }
  }

  /** Deriving a column, querying on it and resetting the index keeps, in order, exactly
      the derived rows that pass the query. */
  lemma DeriveThenQuery<A, B(!new)>(f: Frame<A>, h: A -> B, p: B -> bool)
    ensures var g := ResetIndex(Query(Assign(f, h), p));
      && SubseqOf(Rows(g), Project(Rows(f), h))
      && |g| == Count(Project(Rows(f), h), p)
      && (forall j :: 0 <= j < |g| ==> p(g[j].row))
      && (forall j :: 0 <= j < |g| ==> exists k :: 0 <= k < |f| && g[j].row == h(f[k].row))
      && (forall i :: 0 <= i < |f| && p(h(f[i].row)) ==> h(f[i].row) in Rows(g))
  {
    var derived := Assign(f, h);
    var kept := Query(derived, p);
    var g := ResetIndex(kept);
    SubseqRows(kept, derived);
    QueryCount(derived, p);
    forall j | 0 <= j < |g| ensures p(g[j].row) && exists k :: 0 <= k < |f| && g[j].row == h(f[k].row) {
      assert g[j].row == kept[j].row;
      assert kept[j] in kept;
      var k :| 0 <= k < |derived| && derived[k] == kept[j];
      assert g[j].row == h(f[k].row);
    }
    forall i | 0 <= i < |f| && p(h(f[i].row)) ensures h(f[i].row) in Rows(g) {
      assert derived[i] in derived;
      assert derived[i] in kept;
      var m :| 0 <= m < |kept| && kept[m] == derived[i];
      assert Rows(g)[m] == h(f[i].row);
    }
  }
}

/** The order of the advanced rules (routeRuleCache.go:107-129 and 194-228) and the stable sort by it. */
module RuleOrder {
  import opened Annotations
  import opened RouteRules

  predicate WildcardPath(path: string) {
    |path| > 0 && path[|path| - 1] == '*'
  }

  predicate WildcardHost(host: string) {
    |host| > 1 && host[0] == '*' && host[1] == '.'
  }

  /** Positive when str1 has the higher priority. */
  function ComparePriority(str1: string, str2: string, wildcard: string -> bool): int {
    if !wildcard(str1) && wildcard(str2) then 1
    else if wildcard(str1) && !wildcard(str2) then -1
    else if |str1| > |str2| then 1
    else if |str1| == |str2| then 0
    else -1
  }

  /** The comparator handed to sort.SliceStable. */
  predicate Less(a: Rule, b: Rule) {
    var host := ComparePriority(a.host, b.host, WildcardHost);
    if host != 0 then host > 0 else
      var path := ComparePriority(a.path, b.path, WildcardPath);
      if path != 0 then path > 0 else
        var priority1, priority2 := Priority(a.annotations), Priority(b.annotations);
        if priority1 != priority2 then priority1 > priority2
        else a.createTime < b.createTime
  }

  // ---------------------------------------------------------------- the order it means

  function Bit(b: bool): int { if b then 1 else 0 }

  /** Exact host before wildcard, longer host, exact path before prefix, longer path,
      annotation priority, age. */
  function Rank(r: Rule): seq<int> {
    [Bit(!WildcardHost(r.host)), |r.host|, Bit(!WildcardPath(r.path)), |r.path|, Priority(r.annotations), -r.createTime]
  }

  /** a is lexicographically above b. */
  predicate Above(a: seq<int>, b: seq<int>)
    requires |a| == |b|
  {
    a != [] && (a[0] > b[0] || (a[0] == b[0] && Above(a[1..], b[1..])))
  }

  predicate Tied(a: Rule, b: Rule) {
    Rank(a) == Rank(b)
  }

  lemma AboveAt(a: seq<int>, b: seq<int>, i: nat)
    requires |a| == |b| && i <= |a|
    ensures Above(a[i..], b[i..]) <==> i < |a| && (a[i] > b[i] || (a[i] == b[i] && Above(a[i + 1..], b[i + 1..])))
  {
  }

  /** The comparator is lexicographic comparison of ranks. */
  /** The six comparisons of Above on ranks, unrolled. */
  predicate RankAbove(x: seq<int>, y: seq<int>)
    requires |x| == |y| == 6
  {
    || x[0] > y[0]
    || (x[0] == y[0] &&
        (|| x[1] > y[1]
         || (x[1] == y[1] &&
             (|| x[2] > y[2]
              || (x[2] == y[2] &&
                  (|| x[3] > y[3]
                   || (x[3] == y[3] && (x[4] > y[4] || (x[4] == y[4] && x[5] > y[5])))))))))
  }

  lemma AboveUnrolled(x: seq<int>, y: seq<int>)
    requires |x| == |y| == 6
    ensures Above(x, y) <==> RankAbove(x, y)
  {
    hide Above;
    assert x[0..] == x && y[0..] == y;
    AboveAt(x, y, 0);
    AboveAt(x, y, 1);
    AboveAt(x, y, 2);
    AboveAt(x, y, 3);
    AboveAt(x, y, 4);
    AboveAt(x, y, 5);
    AboveAt(x, y, 6);
  }

  lemma LessIsLexicographic(a: Rule, b: Rule)
    ensures Less(a, b) <==> Above(Rank(a), Rank(b))
  {
    hide Above; hide WildcardHost; hide WildcardPath; hide Priority;
    AboveUnrolled(Rank(a), Rank(b));
  }

  lemma {:induction false} AboveTotal(a: seq<int>, b: seq<int>)
    requires |a| == |b|
    ensures !(Above(a, b) && Above(b, a))
    ensures !Above(a, b) && !Above(b, a) <==> a == b
  {
    if a != [] {
      AboveTotal(a[1..], b[1..]);
      assert a == [a[0]] + a[1..] && b == [b[0]] + b[1..];
    }
  }

  lemma {:induction false} AboveTransitive(a: seq<int>, b: seq<int>, c: seq<int>)
    requires |a| == |b| == |c|
    requires Above(a, b) && Above(b, c)
    ensures Above(a, c)
  {
    if a[0] == b[0] == c[0] {
      AboveTransitive(a[1..], b[1..], c[1..]);
    }
  }

  /** A strict weak order whose ties are the equal ranks. */
  lemma StrictWeakOrder(a: Rule, b: Rule, c: Rule)
    ensures !Less(a, a)
    ensures Less(a, b) ==> !Less(b, a)
    ensures !Less(a, b) && !Less(b, a) <==> Tied(a, b)
    ensures Less(a, b) && Less(b, c) ==> Less(a, c)
    ensures Less(a, c) ==> Less(a, b) || Less(b, c)
  {
    LessIsLexicographic(a, a);
    LessIsLexicographic(a, b);
    LessIsLexicographic(b, a);
    LessIsLexicographic(b, c);
    LessIsLexicographic(c, b);
    LessIsLexicographic(a, c);
    var x, y, z := Rank(a), Rank(b), Rank(c);
    assert |x| == |y| == |z| == 6;
    hide Less; hide Rank;
    AboveTotal(x, x);
    AboveTotal(x, y);
    AboveTotal(y, z);
    if Above(x, y) && Above(y, z) {
      AboveTransitive(x, y, z);
    }
    if Above(x, z) && Above(y, x) {
      AboveTransitive(y, x, z);
    }
  }

  // ---------------------------------------------------------------- sort.SliceStable

  function Insert(r: Rule, sorted: seq<Rule>): seq<Rule> {
    if sorted != [] && Less(sorted[0], r) then [sorted[0]] + Insert(r, sorted[1..])
    else [r] + sorted
  }

  /** sort.SliceStable(rules, Less); StableSortUnique shows that its contract leaves no choice. */
  function StableSort(rules: seq<Rule>): seq<Rule> {
    if rules == [] then [] else Insert(rules[0], StableSort(rules[1..]))
  }

  predicate Sorted(s: seq<Rule>) {
    forall i, j :: 0 <= i < j < |s| ==> !Less(s[j], s[i])
  }

  /** The elements tied with x, in order. */
  function TiedWith(s: seq<Rule>, x: Rule): seq<Rule> {
    if s == [] then [] else (if Tied(s[0], x) then [s[0]] else []) + TiedWith(s[1..], x)
  }

  lemma {:induction false} InsertMembers(r: Rule, s: seq<Rule>)
    ensures multiset(Insert(r, s)) == multiset{r} + multiset(s)
  {
    hide Less;
    if s != [] && Less(s[0], r) {
      assert s == [s[0]] + s[1..];
      InsertMembers(r, s[1..]);
    }
  }

  /** A rule may head a sorted list that holds nothing before it. */
  lemma Headed(x: Rule, s: seq<Rule>)
    requires Sorted(s) && forall y :: y in s ==> !Less(y, x)
    ensures Sorted([x] + s)
  {
    hide Less;
  }

  lemma {:induction false} InsertFacts(r: Rule, s: seq<Rule>)
    requires Sorted(s)
    ensures Sorted(Insert(r, s)) && multiset(Insert(r, s)) == multiset{r} + multiset(s)
  {
    hide Less;
    InsertMembers(r, s);
    if s != [] && Less(s[0], r) {
      InsertFacts(r, s[1..]);
      forall y | y in Insert(r, s[1..])
        ensures !Less(y, s[0])
      {
        assert y in multiset(Insert(r, s[1..]));
        StrictWeakOrder(s[0], r, s[0]);
      }
      Headed(s[0], Insert(r, s[1..]));
    } else {
      forall y | y in s
        ensures !Less(y, r)
      {
        StrictWeakOrder(y, s[0], r);
      }
      Headed(r, s);
    }
  }

  lemma {:induction false} SortFacts(s: seq<Rule>)
    ensures Sorted(StableSort(s)) && multiset(StableSort(s)) == multiset(s)
  {
    hide Less; hide Insert;
    if s != [] {
      SortFacts(s[1..]);
      InsertFacts(s[0], StableSort(s[1..]));
      assert s == [s[0]] + s[1..];
    }
  }

  lemma {:induction false} InsertStable(r: Rule, s: seq<Rule>, x: Rule)
    ensures TiedWith(Insert(r, s), x) == TiedWith([r] + s, x)
  {
    assert ([r] + s)[1..] == s;
    if s != [] && Less(s[0], r) {
      InsertStable(r, s[1..], x);
      StrictWeakOrder(s[0], r, x);
      assert Insert(r, s)[1..] == Insert(r, s[1..]);
      assert ([r] + s[1..])[1..] == s[1..];
    }
  }

  /** Tied rules keep their order. */
  lemma {:induction false} SortStable(s: seq<Rule>, x: Rule)
    ensures TiedWith(StableSort(s), x) == TiedWith(s, x)
  {
    if s != [] {
      SortStable(s[1..], x);
      InsertStable(s[0], StableSort(s[1..]), x);
      assert ([s[0]] + StableSort(s[1..]))[1..] == StableSort(s[1..]);
    }
  }

  lemma {:induction false} TiedWithMember(s: seq<Rule>, x: Rule)
    ensures x in s <==> x in TiedWith(s, x)
    ensures forall y :: y in TiedWith(s, x) ==> Tied(y, x) && y in s
  {
    if s != [] {
      TiedWithMember(s[1..], x);
    }
  }

  /** A sorted list whose ties are in the original order is the stable sort. */
  lemma {:induction false} StableSortUnique(s: seq<Rule>, t: seq<Rule>)
    requires Sorted(t) && forall x :: TiedWith(t, x) == TiedWith(s, x)
    ensures t == StableSort(s)
  {
    SortFacts(s);
    forall x
      ensures TiedWith(t, x) == TiedWith(StableSort(s), x)
    {
      SortStable(s, x);
    }
    SortedUnique(t, StableSort(s));
  }

  lemma {:induction false} SortedUnique(s: seq<Rule>, t: seq<Rule>)
    requires Sorted(s) && Sorted(t) && forall x :: TiedWith(t, x) == TiedWith(s, x)
    ensures s == t
  {
    hide Less; hide Tied;
    if s == [] {
      if t != [] {
        assert TiedWith(s, t[0]) == [];
        TiedWithMember(t, t[0]);
      }
    } else {
      TiedWithMember(s, s[0]);
      TiedWithMember(t, s[0]);
      assert s[0] in t;
      TiedWithMember(t, t[0]);
      TiedWithMember(s, t[0]);
      assert t[0] in s;
      HeadsAgree(s, t);
      forall x
        ensures TiedWith(t[1..], x) == TiedWith(s[1..], x)
      {
        assert TiedWith(t, x) == TiedWith(s, x);
        TiedTail(t, x);
        TiedTail(s, x);
      }
      SortedUnique(s[1..], t[1..]);
      assert s == [s[0]] + s[1..] && t == [t[0]] + t[1..];
    }
  }

  lemma TiedTail(s: seq<Rule>, x: Rule)
    requires s != []
    ensures Tied(s[0], x) ==> |TiedWith(s, x)| > 0
    ensures TiedWith(s[1..], x) == if Tied(s[0], x) then TiedWith(s, x)[1..] else TiedWith(s, x)
  {
  }

  lemma HeadsAgree(s: seq<Rule>, t: seq<Rule>)
    requires Sorted(s) && Sorted(t) && s != [] && t != [] && s[0] in t && t[0] in s
    requires TiedWith(t, s[0]) == TiedWith(s, s[0])
    ensures s[0] == t[0]
  {
    hide Less;
    var i :| 0 <= i < |t| && t[i] == s[0];
    var j :| 0 <= j < |s| && s[j] == t[0];
    StrictWeakOrder(s[0], t[0], s[0]);
    assert !Less(s[0], t[0]) && !Less(t[0], s[0]);
    assert TiedWith(s, s[0])[0] == s[0];
    assert TiedWith(t, s[0])[0] == t[0];
  }
}

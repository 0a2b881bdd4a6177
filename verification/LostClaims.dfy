/** First created wins when rules are deleted too: exactly when the live rule of a key is the one that the remaining claims,
    put from scratch, would give. A deletion does not bring back a claim that the deleted rule had displaced or refused. */
module LostClaims {
  import opened Multimaps
  import opened RouteRules

  // ---------------------------------------------------------------- the claims of a run

  /** The rules put and not deleted since, in order. */
  function Remaining(ops: seq<Op>): seq<Rule> {
    if ops == [] then [] else
      match ops[|ops| - 1]
      case PutOp(r) => Remaining(ops[..|ops| - 1]) + [r]
      case DeleteOp(i) => DelRule(Remaining(ops[..|ops| - 1]), i)
  }

  /** The remaining claims to a key. */
  function Standing(ops: seq<Op>, k: Key): seq<Rule> {
    Claims(EMPTY_CACHE, Remaining(ops), k)
  }

  /** Deleting ingress i after the run takes the live rule of the key. */
  predicate Takes(ops: seq<Op>, k: Key, i: string) {
    LiveAt(Run(ops), k).Some? && LiveAt(Run(ops), k).value.ingress == i
  }

  /** The remaining claims to a key that were there when its live rule was last deleted: each had been displaced or refused. */
  function Orphans(ops: seq<Op>, k: Key): seq<Rule> {
    if ops == [] then [] else
      var front := ops[..|ops| - 1];
      match ops[|ops| - 1]
      case PutOp(r) => Orphans(front, k)
      case DeleteOp(i) => DelRule(if Takes(front, k, i) then Standing(front, k) else Orphans(front, k), i)
  }

  /** The remaining claims put since. */
  function Current(ops: seq<Op>, k: Key): seq<Rule> {
    if ops == [] then [] else
      var front := ops[..|ops| - 1];
      match ops[|ops| - 1]
      case PutOp(r) => Current(front, k) + if KeyOf(r) == k then [r] else []
      case DeleteOp(i) => if Takes(front, k, i) then [] else DelRule(Current(front, k), i)
  }

  // ---------------------------------------------------------------- the winner among claims

  /** The first of the oldest claims. */
  function Winner(claims: seq<Rule>): (r: Option<Rule>)
    ensures r.None? <==> claims == []
    ensures r.Some? ==> FirstCreated(claims, r.value)
    ensures r.Some? ==> r.value in claims && forall c :: c in claims ==> r.value.createTime <= c.createTime
  {
    if claims == [] then None else
      var front, last := claims[..|claims| - 1], claims[|claims| - 1];
      assert claims == front + [last];
      match Winner(front)
      case None =>
        assert claims[0] == last;
        Some(last)
      case Some(r) =>
        FirstCreatedStep(front, r, last);
        Some(if last.createTime < r.createTime then last else r)
  }

  lemma WinnerStep(claims: seq<Rule>, last: Rule)
    ensures Winner(claims + [last]) ==
            Some(if Winner(claims).Some? && Winner(claims).value.createTime <= last.createTime then Winner(claims).value else last)
  {
    assert (claims + [last])[..|claims|] == claims;
  }

  /** Losing claims do not matter. */
  lemma {:induction false} WinnerStays(claims: seq<Rule>, i: string)
    requires claims != [] && Winner(claims).value.ingress != i
    ensures Winner(DelRule(claims, i)) == Winner(claims)
  {
    hide *;
    var front, last := claims[..|claims| - 1], claims[|claims| - 1];
    assert claims == front + [last];
    WinnerStep(front, last);
    DelRuleStep(claims, i);
    if front != [] && Winner(front).value.createTime <= last.createTime {
      WinnerStays(front, i);
    } else {
      LaterOfRest(front, last, i);
    }
    if last.ingress != i {
      WinnerStep(DelRule(front, i), last);
    } else {
      assert DelRule(front, i) + [] == DelRule(front, i);
    }
  }

  /** What beats all claims beats those left. */
  lemma LaterOfRest(claims: seq<Rule>, last: Rule, i: string)
    requires claims != [] ==> last.createTime < Winner(claims).value.createTime
    ensures var rest := DelRule(claims, i); rest != [] ==> last.createTime < Winner(rest).value.createTime
  {
    hide Winner; hide DelRule;
    DelRuleFacts(claims, i);
  }

  lemma {:induction false} WinnerOfTwo(a: seq<Rule>, b: seq<Rule>)
    ensures Winner(a + b) ==
            if b == [] || (a != [] && Winner(a).value.createTime <= Winner(b).value.createTime) then Winner(a) else Winner(b)
  {
    if b == [] {
      assert a + b == a;
    } else {
      var front, last := b[..|b| - 1], b[|b| - 1];
      assert b == front + [last] && a + b == (a + front) + [last];
      WinnerOfTwo(a, front);
      WinnerStep(a + front, last);
      WinnerStep(front, last);
      hide Winner;
      if front == [] {
        assert a + front == a;
      }
    }
  }

  lemma {:induction false} DelRuleAppend(a: seq<Rule>, b: seq<Rule>, i: string)
    ensures DelRule(a + b, i) == DelRule(a, i) + DelRule(b, i)
  {
    if b == [] {
      assert a + b == a;
    } else {
      var front, last := b[..|b| - 1], b[|b| - 1];
      assert (a + b)[..|a + b| - 1] == a + front;
      DelRuleAppend(a, front, i);
    }
  }

  lemma {:induction false} ClaimsDeleted(rules: seq<Rule>, k: Key, i: string)
    ensures Claims(EMPTY_CACHE, DelRule(rules, i), k) == DelRule(Claims(EMPTY_CACHE, rules, k), i)
  {
    hide *;
    if rules == [] {
      NothingYet(k);
      NothingWins();
    } else {
      var front, last := rules[..|rules| - 1], rules[|rules| - 1];
      var own := if KeyOf(last) == k then [last] else [];
      assert rules == front + [last];
      ClaimsDeleted(front, k, i);
      ClaimsStep(front, last, k);
      ClaimsStep(DelRule(front, i), last, k);
      DelRuleStep(rules, i);
      DelRuleAppend(Claims(EMPTY_CACHE, front, k), own, i);
      DelRuleOne(last, i);
      NothingWins();
      assert DelRule(front, i) + [] == DelRule(front, i);
      assert Claims(EMPTY_CACHE, DelRule(front, i), k) + [] == Claims(EMPTY_CACHE, DelRule(front, i), k);
    }
  }

  lemma DelRuleOne(r: Rule, i: string)
    ensures DelRule([r], i) == if r.ingress != i then [r] else []
  {
    assert [r][..0] == [];
  }

  lemma ClaimsStep(rules: seq<Rule>, last: Rule, k: Key)
    ensures Claims(EMPTY_CACHE, rules + [last], k) == Claims(EMPTY_CACHE, rules, k) + if KeyOf(last) == k then [last] else []
  {
    assert (rules + [last])[..|rules|] == rules;
  }

  // ---------------------------------------------------------------- the live rule of a run

  lemma {:induction false} StandingSplits(ops: seq<Op>, k: Key)
    ensures Standing(ops, k) == Orphans(ops, k) + Current(ops, k)
  {
    if ops != [] {
      var front := ops[..|ops| - 1];
      StandingSplits(front, k);
      match ops[|ops| - 1]
      case PutOp(r) => ClaimsStep(Remaining(front), r, k);
      case DeleteOp(i) =>
        ClaimsDeleted(Remaining(front), k, i);
        DelRuleAppend(Orphans(front, k), Current(front, k), i);
    }
  }

  /** The live rule is the winner of the current claims. */
  lemma {:induction false} LiveIsCurrent(ops: seq<Op>, k: Key)
    ensures LiveAt(Run(ops), k) == Winner(Current(ops, k))
  {
    hide Inv; hide LiveAt; hide RouteRules.Put; hide Delete; hide Winner;
    if ops == [] {
      NothingLive(k);
      return;
    }
    var front := ops[..|ops| - 1];
    LiveIsCurrent(front, k);
    RunRefines(front);
    match ops[|ops| - 1]
    case PutOp(r) =>
      PutLiveAt(Run(front), r, k);
      WinnerStep(Current(front, k), r);
      assert Current(front, k) + [] == Current(front, k);
    case DeleteOp(i) =>
      DeleteLiveAt(Run(front), i, k);
      NothingWins();
      if !Takes(front, k, i) && Current(front, k) != [] {
        WinnerStays(Current(front, k), i);
      }
  }

  lemma NothingLive(k: Key)
    ensures Inv(EMPTY_CACHE) && LiveAt(EMPTY_CACHE, k) == None && Winner([]) == None
  {
  }

  lemma NothingWins()
    ensures Winner([]) == None && forall i :: DelRule([], i) == []
  {
  }

  /** Putting rules from scratch leaves the winner of the claims to a key. */
  lemma {:induction false} ScratchIsWinner(rules: seq<Rule>, k: Key)
    ensures LiveAt(RouteRules.PutAll(EMPTY_CACHE, rules), k) == Winner(Claims(EMPTY_CACHE, rules, k))
  {
    hide Inv; hide LiveAt; hide RouteRules.Put; hide Winner;
    NothingLive(k);
    if rules != [] {
      var front, last := rules[..|rules| - 1], rules[|rules| - 1];
      ScratchIsWinner(front, k);
      PutAllKeepsInv(EMPTY_CACHE, front);
      PutLiveAt(RouteRules.PutAll(EMPTY_CACHE, front), last, k);
      WinnerStep(Claims(EMPTY_CACHE, front, k), last);
      assert Claims(EMPTY_CACHE, front, k) + [] == Claims(EMPTY_CACHE, front, k);
    }
  }

  // ---------------------------------------------------------------- when it is the one of the remaining claims

  /** Every addRule allocates its rule. */
  ghost predicate DistinctPuts(ops: seq<Op>) {
    forall i, j :: 0 <= i < j < |ops| && ops[i].PutOp? && ops[j].PutOp? ==> ops[i].rule != ops[j].rule
  }

  ghost predicate WasPut(ops: seq<Op>, r: Rule) {
    exists i :: 0 <= i < |ops| && ops[i] == PutOp(r)
  }

  lemma {:induction false} RemainingWasPut(ops: seq<Op>, r: Rule)
    requires r in Remaining(ops)
    ensures WasPut(ops, r)
  {
    var front := ops[..|ops| - 1];
    if ops[|ops| - 1] != PutOp(r) {
      if ops[|ops| - 1].DeleteOp? {
        DelRuleFacts(Remaining(front), ops[|ops| - 1].ingress);
      }
      RemainingWasPut(front, r);
      var i :| 0 <= i < |front| && front[i] == PutOp(r);
      assert ops[i] == PutOp(r);
    }
  }

  lemma {:induction false} OrphanIsNotCurrent(ops: seq<Op>, k: Key, r: Rule)
    requires DistinctPuts(ops) && r in Orphans(ops, k)
    ensures r !in Current(ops, k)
  {
    hide *;
    NothingWaits(k);
    var front := ops[..|ops| - 1];
    match ops[|ops| - 1]
    case PutOp(x) =>
      LastPut(ops, k, x);
      OrphanIsNotCurrent(front, k, r);
      OrphanRemains(front, k, r);
      RemainingWasPut(front, r);
      PutIsNew(ops, x, r);
    case DeleteOp(i) =>
      LastDelete(ops, k, i);
      DelRuleFacts(Orphans(front, k), i);
      DelRuleFacts(Current(front, k), i);
      if !Takes(front, k, i) {
        OrphanIsNotCurrent(front, k, r);
      }
  }

  lemma NothingWaits(k: Key)
    ensures Orphans([], k) == []
  {
  }

  lemma LastPut(ops: seq<Op>, k: Key, r: Rule)
    requires ops != [] && ops[|ops| - 1] == PutOp(r)
    ensures var front := ops[..|ops| - 1];
            && Orphans(ops, k) == Orphans(front, k)
            && Current(ops, k) == Current(front, k) + if KeyOf(r) == k then [r] else []
    ensures DistinctPuts(ops) ==> DistinctPuts(ops[..|ops| - 1])
  {
    hide KeyOf;
  }

  lemma LastDelete(ops: seq<Op>, k: Key, i: string)
    requires ops != [] && ops[|ops| - 1] == DeleteOp(i)
    ensures var front := ops[..|ops| - 1];
            && Orphans(ops, k) == DelRule(if Takes(front, k, i) then Standing(front, k) else Orphans(front, k), i)
            && Current(ops, k) == if Takes(front, k, i) then [] else DelRule(Current(front, k), i)
    ensures DistinctPuts(ops) ==> DistinctPuts(ops[..|ops| - 1])
  {
    hide Takes; hide DelRule; hide Standing;
  }

  lemma PutIsNew(ops: seq<Op>, x: Rule, r: Rule)
    requires DistinctPuts(ops) && ops != [] && ops[|ops| - 1] == PutOp(x) && WasPut(ops[..|ops| - 1], r)
    ensures r != x
  {
    var front := ops[..|ops| - 1];
    var i :| 0 <= i < |front| && front[i] == PutOp(r);
    assert ops[i] == PutOp(r);
  }

  lemma OrphanRemains(ops: seq<Op>, k: Key, r: Rule)
    requires r in Orphans(ops, k)
    ensures r in Remaining(ops)
  {
    hide Orphans; hide Current; hide Remaining;
    StandingSplits(ops, k);
    assert r in Standing(ops, k);
    ClaimsMembers(EMPTY_CACHE, Remaining(ops), k, r);
  }

  /** An older claim than o was put after the live rule was deleted. */
  ghost predicate Outbid(ops: seq<Op>, k: Key, o: Rule) {
    exists c :: c in Current(ops, k) && c.createTime < o.createTime
  }

  /** After any puts and deletions the live rule of a key is the one that the remaining rules would give from scratch exactly when
      every remaining claim that a deleted rule had kept out has been outbid since. */
  lemma LiveFromScratchExactly(ops: seq<Op>, k: Key)
    requires DistinctPuts(ops)
    ensures LiveAt(Run(ops), k) == LiveAt(RouteRules.PutAll(EMPTY_CACHE, Remaining(ops)), k) <==>
            forall o :: o in Orphans(ops, k) ==> Outbid(ops, k, o)
  {
    hide *;
    var orphans, current := Orphans(ops, k), Current(ops, k);
    LiveIsCurrent(ops, k);
    ScratchIsWinner(Remaining(ops), k);
    SplitWinner(ops, k);
    WinnerOfTwo(orphans, current);
    if orphans != [] {
      OrphanIsNotCurrent(ops, k, Winner(orphans).value);
      OutbidExactly(ops, k, Winner(orphans).value);
      forall o | o in orphans
        ensures Outbid(ops, k, Winner(orphans).value) ==> Outbid(ops, k, o)
      {
        OutbidExactly(ops, k, o);
      }
    }
  }

  lemma SplitWinner(ops: seq<Op>, k: Key)
    ensures Winner(Claims(EMPTY_CACHE, Remaining(ops), k)) == Winner(Orphans(ops, k) + Current(ops, k))
  {
    hide Winner; hide Orphans; hide Current; hide Remaining; hide Claims;
    StandingSplits(ops, k);
  }

  lemma OutbidExactly(ops: seq<Op>, k: Key, o: Rule)
    ensures Outbid(ops, k, o) <==> Current(ops, k) != [] && Winner(Current(ops, k)).value.createTime < o.createTime
  {
    hide Current; hide Winner;
  }

  /** Where the live rule of a key is the one of the remaining claims, deleting an ingress leaves it so exactly when the
      deletion does not take the live rule while another ingress still claims the key. */
  lemma DeletionKeepsScratchExactly(ops: seq<Op>, k: Key, i: string)
    requires LiveAt(Run(ops), k) == LiveAt(RouteRules.PutAll(EMPTY_CACHE, Remaining(ops)), k)
    ensures LiveAt(Run(ops + [DeleteOp(i)]), k) == LiveAt(RouteRules.PutAll(EMPTY_CACHE, Remaining(ops + [DeleteOp(i)])), k) <==>
            !(Takes(ops, k, i) && exists r :: r in Standing(ops, k) && r.ingress != i)
  {
    hide Run; hide RouteRules.PutAll; hide LiveAt; hide Inv; hide Delete; hide Winner; hide Claims; hide DelRule;
    var all := ops + [DeleteOp(i)];
    assert all[..|all| - 1] == ops;
    RunStep(ops, i);
    RunRefines(ops);
    DeleteLiveAt(Run(ops), i, k);
    ScratchIsWinner(Remaining(ops), k);
    ScratchIsWinner(Remaining(all), k);
    ClaimsDeleted(Remaining(ops), k, i);
    DelRuleFacts(Standing(ops, k), i);
    if !Takes(ops, k, i) && Standing(ops, k) != [] {
      WinnerStays(Standing(ops, k), i);
    }
    if DelRule(Standing(ops, k), i) != [] {
      assert DelRule(Standing(ops, k), i)[0] in Standing(ops, k);
    }
    NothingWins();
  }

  lemma RunStep(ops: seq<Op>, i: string)
    ensures Run(ops + [DeleteOp(i)]) == Delete(Run(ops), i)
  {
    hide Delete; hide RouteRules.Put;
    assert (ops + [DeleteOp(i)])[..|ops|] == ops;
  }

  lemma PutStep(ops: seq<Op>, r: Rule, k: Key)
    ensures Remaining(ops + [PutOp(r)]) == Remaining(ops) + [r]
    ensures Current(ops + [PutOp(r)], k) == Current(ops, k) + if KeyOf(r) == k then [r] else []
  {
    assert (ops + [PutOp(r)])[..|ops|] == ops;
  }

  /** Its live rule deleted, a key is empty, whoever else claims it. */
  lemma TakenStep(ops: seq<Op>, k: Key, i: string)
    requires Takes(ops, k, i)
    ensures Current(ops + [DeleteOp(i)], k) == []
    ensures Remaining(ops + [DeleteOp(i)]) == DelRule(Remaining(ops), i)
  {
    hide Takes; hide DelRule;
    assert (ops + [DeleteOp(i)])[..|ops|] == ops;
  }

  /** A rule displaced by an older ingress stays out when that ingress is deleted, whatever the rules. */
  lemma DisplacedStaysOut(a: Rule, b: Rule)
    requires KeyOf(a) == KeyOf(b) && a.ingress != b.ingress && a.createTime < b.createTime
    ensures var ops := [PutOp(b), PutOp(a), DeleteOp(a.ingress)];
            && Remaining(ops) == [b]
            && LiveAt(Run(ops), KeyOf(b)) == None
            && LiveAt(RouteRules.PutAll(EMPTY_CACHE, Remaining(ops)), KeyOf(b)) == Some(b)
  {
    hide *;
    var k := KeyOf(b);
    var one, two := [] + [PutOp(b)], [] + [PutOp(b)] + [PutOp(a)];
    NothingYet(k);
    PutStep([], b, k);
    PutStep(one, a, k);
    assert [] + [b] == [b];
    WinnerStep([], b);
    WinnerStep([b], a);
    LiveIsCurrent(two, k);
    TakesLive(two, k, a);
    TakenStep(two, k, a.ingress);
    var all := two + [DeleteOp(a.ingress)];
    assert all == [PutOp(b), PutOp(a), DeleteOp(a.ingress)];
    LiveIsCurrent(all, k);
    OneLeft(b, a);
    ScratchIsWinner([b], k);
    ClaimsStep([], b, k);
  }

  lemma NothingYet(k: Key)
    ensures Remaining([]) == [] && Current([], k) == [] && Claims(EMPTY_CACHE, [], k) == [] && Winner([]) == None
  {
    hide LiveAt;
    NothingLive(k);
  }

  lemma TakesLive(ops: seq<Op>, k: Key, r: Rule)
    requires LiveAt(Run(ops), k) == Some(r)
    ensures Takes(ops, k, r.ingress)
  {
  }

  lemma OneLeft(b: Rule, a: Rule)
    requires a.ingress != b.ingress
    ensures DelRule([b] + [a], a.ingress) == [b]
  {
    assert ([b] + [a])[..1] == [b] && [b][..0] == [];
    DelRuleStep([b] + [a], a.ingress);
    DelRuleStep([b], a.ingress);
    DelRuleStep([], a.ingress);
    assert [] + [b] == [b];
  }
}

/** The attention box's grouping by demand (app/usecases/attention.py): one pass over
    the queue, filling an insertion-ordered dictionary and appending in place. */
module Grouping {
  import opened Options

  /** A lower `priority` is more urgent; an account item has the empty `demandId`. */
  datatype AttentionItem = AttentionItem(id: string, kind: string, targetKind: string, targetId: string,
                                         demandId: string, title: string, summary: string, priority: int,
                                         openedAt: Maybe<int>, resolvedAt: Maybe<int>)

  class AttentionGroup {
    const demandId: string
    var items: seq<AttentionItem>

    constructor (demandId: string)
      ensures this.demandId == demandId && items == []
    {
      this.demandId := demandId;
      items := [];
    }
  }

  /** A group as a value: what the caller reads off an `AttentionGroup`. */
  datatype Group = Group(demandId: string, items: seq<AttentionItem>)

  // ── the declarative grouping ────────────────────────────────────────────────

  /** The demand ids of the queue, in the order of their first occurrence. */
  function Keys(items: seq<AttentionItem>): seq<string> {
    if items == [] then []
    else
      var ks, d := Keys(items[..|items| - 1]), items[|items| - 1].demandId;
      if d in ks then ks else ks + [d]
  }

  /** The queue filtered by demand, in queue order. */
  function Of(items: seq<AttentionItem>, demandId: string): seq<AttentionItem> {
    if items == [] then []
    else
      var last := items[|items| - 1];
      Of(items[..|items| - 1], demandId) + if last.demandId == demandId then [last] else []
  }

  function Groups(items: seq<AttentionItem>): seq<Group> {
    seq(|Keys(items)|, i requires 0 <= i < |Keys(items)| => Group(Keys(items)[i], Of(items, Keys(items)[i])))
  }

  // ── the loop ────────────────────────────────────────────────────────────────

  /** What one more item does to the declarative grouping. */
  lemma OneMore(done: seq<AttentionItem>, item: AttentionItem)
    ensures Keys(done + [item]) == if item.demandId in Keys(done) then Keys(done) else Keys(done) + [item.demandId]
    ensures forall d :: Of(done + [item], d) == Of(done, d) + if item.demandId == d then [item] else []
  {
    assert (done + [item])[..|done|] == done;
  }

  /** `order` holds a group for each of `keys`, with that demand's items of `done`. */
  ghost predicate Holds(order: seq<AttentionGroup>, keys: seq<string>, done: seq<AttentionItem>)
    reads order
  {
    && |order| == |keys|
    && forall i :: 0 <= i < |order| ==> order[i].demandId == keys[i] && order[i].items == Of(done, keys[i])
  }

  /** `index` finds each group of `order` by its demand, and nothing else. */
  ghost predicate Lookup(index: map<string, AttentionGroup>, order: seq<AttentionGroup>) {
    && (forall i :: 0 <= i < |order| ==> order[i].demandId in index && index[order[i].demandId] == order[i])
    && (forall d :: d in index ==> index[d] in order && index[d].demandId == d)
  }

  /** The group of an item's demand, created and inserted last when there is none. */
  method FindOrInsert(index: map<string, AttentionGroup>, order: seq<AttentionGroup>, item: AttentionItem,
                      ghost done: seq<AttentionItem>)
    returns (group: AttentionGroup, index': map<string, AttentionGroup>, order': seq<AttentionGroup>)
    requires Lookup(index, order) && Holds(order, Keys(done), done)
    ensures Lookup(index', order') && Holds(order', Keys(done + [item]), done)
    ensures group in order' && group.demandId == item.demandId
    ensures forall g :: g in order' ==> g in order || fresh(g)
  {
    index', order' := index, order;
    OneMore(done, item);
    OfAbsent(done, item.demandId);
    if item.demandId in index {
      group := index[item.demandId];
    } else {
      group := new AttentionGroup(item.demandId);
      index' := index[item.demandId := group];
      order' := order + [group];
    }
  }

  /** `_group_by_demand`: the dictionary is `index` for lookup and `order` for its
      insertion order. */
  method GroupByDemand(items: seq<AttentionItem>) returns (order: seq<AttentionGroup>)
    ensures forall g :: g in order ==> fresh(g)
    ensures |order| == |Groups(items)|
    ensures forall i :: 0 <= i < |order| ==> Group(order[i].demandId, order[i].items) == Groups(items)[i]
  {
    order := [];
    var index: map<string, AttentionGroup> := map[];
    var n := 0;
    while n < |items|
      invariant n <= |items|
      invariant forall g :: g in order ==> fresh(g)
      invariant Lookup(index, order)
      invariant Holds(order, Keys(items[..n]), items[..n])
    {
      var item := items[n];
      ghost var done := items[..n];
      assert items[..n + 1] == done + [item];
      var group;
      group, index, order := FindOrInsert(index, order, item, done);
      label append:
      group.items := group.items + [item];
      OneMore(done, item);
      assert forall i :: 0 <= i < |order| ==> old@append(order[i].items) == Of(done, order[i].demandId);
      assert forall i :: 0 <= i < |order| ==> (order[i] == group <==> order[i].demandId == item.demandId);
      n := n + 1;
    }
    assert items[..n] == items;
  }

  // ── what the grouping means ─────────────────────────────────────────────────

  /** `n` is where `d` first occurs in the queue. */
  ghost predicate FirstAt(items: seq<AttentionItem>, d: string, n: nat) {
    n < |items| && items[n].demandId == d && forall m :: 0 <= m < n ==> items[m].demandId != d
  }

  lemma {:induction false} KeysSound(items: seq<AttentionItem>)
    ensures forall d :: d in Keys(items) <==> exists n :: 0 <= n < |items| && items[n].demandId == d
    ensures forall i, j :: 0 <= i < j < |Keys(items)| ==> Keys(items)[i] != Keys(items)[j]
  {
    if items != [] {
      var init := items[..|items| - 1];
      KeysSound(init);
      forall d | d in Keys(items)
        ensures exists n :: 0 <= n < |items| && items[n].demandId == d
      {
        if d in Keys(init) {
          var n :| 0 <= n < |init| && init[n].demandId == d;
          assert items[n].demandId == d;
        }
      }
      forall n | 0 <= n < |items|
        ensures items[n].demandId in Keys(items)
      {
        if n < |init| {
          assert init[n].demandId in Keys(init);
        }
      }
    }
  }

  lemma {:induction false} KeysFirst(items: seq<AttentionItem>, i: nat, j: nat, m: nat, n: nat)
    requires i < j < |Keys(items)| && FirstAt(items, Keys(items)[i], m) && FirstAt(items, Keys(items)[j], n)
    ensures m < n
  {
    var init := items[..|items| - 1];
    KeysSound(items);
    KeysSound(init);
    if j < |Keys(init)| {
      KeysSound(init[..]);
      assert Keys(init)[j] in Keys(init) && Keys(init)[i] in Keys(init);
      var a :| 0 <= a < |init| && init[a].demandId == Keys(init)[j];
      var b :| 0 <= b < |init| && init[b].demandId == Keys(init)[i];
      assert items[a].demandId == Keys(items)[j] && items[b].demandId == Keys(items)[i];
      KeysFirst(init, i, j, m, n);
    } else {
      assert Keys(items)[j] == items[|items| - 1].demandId;
      assert Keys(items)[j] !in Keys(init);
      assert forall k :: 0 <= k < |init| ==> init[k].demandId in Keys(init);
      assert n == |init|;
    }
  }

  lemma {:induction false} OfAbsent(items: seq<AttentionItem>, d: string)
    ensures d !in Keys(items) <==> Of(items, d) == []
  {
    if items != [] {
      OfAbsent(items[..|items| - 1], d);
    }
  }

  lemma {:induction false} OfMembers(items: seq<AttentionItem>, d: string)
    ensures forall x :: x in Of(items, d) <==> x in items && x.demandId == d
    ensures forall k :: 0 <= k < |Of(items, d)| ==> Of(items, d)[k].demandId == d
  {
    if items != [] {
      var init := items[..|items| - 1];
      OfMembers(init, d);
      assert items == init + [items[|items| - 1]];
    }
  }

  /** The shape of a grouping: distinct demands, no empty group, and every item in
      the group of its own demand. */
  ghost predicate WellGrouped(gs: seq<Group>) {
    && (forall i :: 0 <= i < |gs| ==> gs[i].items != [])
    && (forall i, k :: 0 <= i < |gs| && 0 <= k < |gs[i].items| ==> gs[i].items[k].demandId == gs[i].demandId)
    && (forall i, j :: 0 <= i < j < |gs| ==> gs[i].demandId != gs[j].demandId)
  }

  /** Groups are well formed, and come out in the order in which each demand first
      shows up in the queue. */
  lemma GroupsAreWellGrouped(items: seq<AttentionItem>)
    ensures WellGrouped(Groups(items))
    ensures forall n :: 0 <= n < |items| ==>
              exists i :: 0 <= i < |Groups(items)| && Groups(items)[i].demandId == items[n].demandId
    ensures forall i: nat, j: nat, m: nat, n: nat |
              i < j < |Groups(items)|
              && FirstAt(items, Groups(items)[i].demandId, m) && FirstAt(items, Groups(items)[j].demandId, n)
              :: m < n
  {
    KeysSound(items);
    var ks, gs := Keys(items), Groups(items);
    forall i | 0 <= i < |gs|
      ensures gs[i].items != []
      ensures forall k :: 0 <= k < |gs[i].items| ==> gs[i].items[k].demandId == gs[i].demandId
    {
      OfAbsent(items, ks[i]);
      OfMembers(items, ks[i]);
    }
    forall i: nat, j: nat, m: nat, n: nat |
      i < j < |gs| && FirstAt(items, gs[i].demandId, m) && FirstAt(items, gs[j].demandId, n)
      ensures m < n
    {
      KeysFirst(items, i, j, m, n);
    }
    forall n | 0 <= n < |items|
      ensures exists i :: 0 <= i < |gs| && gs[i].demandId == items[n].demandId
    {
      assert items[n].demandId in ks;
      var i :| 0 <= i < |ks| && ks[i] == items[n].demandId;
      assert gs[i].demandId == items[n].demandId;
    }
  }

  // ── conservation ────────────────────────────────────────────────────────────

  function Flat(gs: seq<Group>): seq<AttentionItem> {
    if gs == [] then [] else Flat(gs[..|gs| - 1]) + gs[|gs| - 1].items
  }

  /** An item of no group's demand occurs in none of the groups. */
  lemma {:induction false} FlatAbsent(gs: seq<Group>, x: AttentionItem)
    requires WellGrouped(gs) && forall i :: 0 <= i < |gs| ==> gs[i].demandId != x.demandId
    ensures x !in Flat(gs)
  {
    if gs != [] {
      FlatAbsent(gs[..|gs| - 1], x);
    }
  }

  /** An item occurs as often in all the groups as in that of its demand. */
  lemma {:induction false} FlatCount(gs: seq<Group>, i: nat, x: AttentionItem)
    requires WellGrouped(gs) && i < |gs| && gs[i].demandId == x.demandId
    ensures multiset(Flat(gs))[x] == multiset(gs[i].items)[x]
  {
    var init, last := gs[..|gs| - 1], gs[|gs| - 1];
    assert multiset(Flat(gs))[x] == multiset(Flat(init))[x] + multiset(last.items)[x];
    if i < |init| {
      FlatCount(init, i, x);
      assert x !in last.items;
    } else {
      FlatAbsent(init, x);
    }
  }

  lemma {:induction false} OfCount(items: seq<AttentionItem>, x: AttentionItem)
    ensures multiset(Of(items, x.demandId))[x] == multiset(items)[x]
  {
    if items != [] {
      OfCount(items[..|items| - 1], x);
      assert items == items[..|items| - 1] + [items[|items| - 1]];
    }
  }

  /** No item is lost, none is repeated. */
  lemma ItemsAreConserved(items: seq<AttentionItem>)
    ensures multiset(Flat(Groups(items))) == multiset(items)
  {
    var gs, ks := Groups(items), Keys(items);
    GroupsAreWellGrouped(items);
    KeysSound(items);
    forall x
      ensures multiset(Flat(gs))[x] == multiset(items)[x]
    {
      OfCount(items, x);
      if x.demandId in ks {
        var i :| 0 <= i < |ks| && ks[i] == x.demandId;
        FlatCount(gs, i, x);
      } else {
        OfAbsent(items, x.demandId);
        FlatAbsent(gs, x);
      }
    }
  }

  // ── grouping is not a second ruler ──────────────────────────────────────────

  ghost predicate ByPriority(items: seq<AttentionItem>) {
    forall i, j :: 0 <= i < j < |items| ==> items[i].priority <= items[j].priority
  }

  lemma {:induction false} OfByPriority(items: seq<AttentionItem>, d: string)
    requires ByPriority(items)
    ensures ByPriority(Of(items, d))
    ensures items != [] ==> forall k :: 0 <= k < |Of(items, d)| ==>
              Of(items, d)[k].priority <= items[|items| - 1].priority
  {
    if items != [] {
      OfByPriority(items[..|items| - 1], d);
    }
  }

  lemma {:induction false} HeadIsFirst(items: seq<AttentionItem>, d: string, n: nat)
    requires FirstAt(items, d, n)
    ensures Of(items, d) != [] && Of(items, d)[0] == items[n]
  {
    var init := items[..|items| - 1];
    if n < |init| {
      HeadIsFirst(init, d, n);
    } else {
      KeysSound(init);
      OfAbsent(init, d);
    }
  }

  lemma FirstExists(items: seq<AttentionItem>, d: string, bound: nat) returns (n: nat)
    requires bound < |items| && items[bound].demandId == d
    ensures FirstAt(items, d, n)
  {
    n := 0;
    while items[n].demandId != d
      invariant n <= bound
      decreases bound - n
      invariant forall m :: 0 <= m < n ==> items[m].demandId != d
    {
      n := n + 1;
    }
  }

  lemma HeadsOrdered(items: seq<AttentionItem>, i: nat, j: nat)
    requires ByPriority(items) && i < j < |Keys(items)|
    ensures Of(items, Keys(items)[i]) != [] && Of(items, Keys(items)[j]) != []
    ensures Of(items, Keys(items)[i])[0].priority <= Of(items, Keys(items)[j])[0].priority
  {
    var ks := Keys(items);
    KeysSound(items);
    assert ks[i] in ks && ks[j] in ks;
    var a: nat :| a < |items| && items[a].demandId == ks[i];
    var b: nat :| b < |items| && items[b].demandId == ks[j];
    var m := FirstExists(items, ks[i], a);
    var n := FirstExists(items, ks[j], b);
    KeysFirst(items, i, j, m, n);
    HeadIsFirst(items, ks[i], m);
    HeadIsFirst(items, ks[j], n);
  }

  /** On a queue in priority order, each group is in priority order, so its head is
      its most urgent item, and the heads of any two groups are in priority order too. */
  lemma HeadsKeepTheCoresOrder(items: seq<AttentionItem>)
    requires ByPriority(items)
    ensures forall i :: 0 <= i < |Groups(items)| ==> ByPriority(Groups(items)[i].items) && Groups(items)[i].items != []
    ensures forall i, j :: 0 <= i < j < |Groups(items)| ==>
              Groups(items)[i].items[0].priority <= Groups(items)[j].items[0].priority
  {
    GroupsAreWellGrouped(items);
    forall i | 0 <= i < |Groups(items)|
      ensures ByPriority(Groups(items)[i].items)
    {
      OfByPriority(items, Keys(items)[i]);
    }
    forall i, j | 0 <= i < j < |Groups(items)|
      ensures Groups(items)[i].items[0].priority <= Groups(items)[j].items[0].priority
    {
      HeadsOrdered(items, i, j);
    }
  }

  // ── regrouping ──────────────────────────────────────────────────────────────

  lemma {:induction false} OfConcat(a: seq<AttentionItem>, b: seq<AttentionItem>, d: string)
    ensures Of(a + b, d) == Of(a, d) + Of(b, d)
  {
    if b == [] {
      assert a + b == a;
    } else {
      assert (a + b)[..|a + b| - 1] == a + b[..|b| - 1];
      OfConcat(a, b[..|b| - 1], d);
    }
  }

  lemma {:induction false} OfUniform(b: seq<AttentionItem>, e: string, d: string)
    requires forall k :: 0 <= k < |b| ==> b[k].demandId == e
    ensures Of(b, d) == if d == e then b else []
  {
    if b != [] {
      OfUniform(b[..|b| - 1], e, d);
      assert b == b[..|b| - 1] + [b[|b| - 1]];
    }
  }

  lemma {:induction false} KeysAppendUniform(a: seq<AttentionItem>, b: seq<AttentionItem>, e: string)
    requires b != [] && forall k :: 0 <= k < |b| ==> b[k].demandId == e
    ensures Keys(a + b) == if e in Keys(a) then Keys(a) else Keys(a) + [e]
  {
    assert (a + b)[..|a + b| - 1] == a + b[..|b| - 1];
    if |b| == 1 {
      assert a + b[..0] == a;
    } else {
      KeysAppendUniform(a, b[..|b| - 1], e);
    }
  }

  /** A further group of a demand not yet grouped comes out last and disturbs none. */
  lemma GroupsAppend(a: seq<AttentionItem>, last: Group)
    requires last.demandId !in Keys(a) && last.items != []
    requires forall k :: 0 <= k < |last.items| ==> last.items[k].demandId == last.demandId
    ensures Groups(a + last.items) == Groups(a) + [last]
  {
    KeysAppendUniform(a, last.items, last.demandId);
    var all := a + last.items;
    forall i | 0 <= i < |Keys(all)|
      ensures Group(Keys(all)[i], Of(all, Keys(all)[i])) == (Groups(a) + [last])[i]
    {
      OfAppendUniform(a, last, Keys(all)[i]);
    }
    assert |Groups(all)| == |Groups(a) + [last]|;
  }

  lemma OfAppendUniform(a: seq<AttentionItem>, last: Group, d: string)
    requires last.demandId !in Keys(a)
    requires forall k :: 0 <= k < |last.items| ==> last.items[k].demandId == last.demandId
    ensures Of(a + last.items, d) == if d == last.demandId then last.items else Of(a, d)
  {
    OfAbsent(a, last.demandId);
    OfConcat(a, last.items, d);
    OfUniform(last.items, last.demandId, d);
  }

  lemma {:induction false} GroupsOfFlat(gs: seq<Group>)
    requires WellGrouped(gs)
    ensures Groups(Flat(gs)) == gs
  {
    if gs != [] {
      var init, last := gs[..|gs| - 1], gs[|gs| - 1];
      GroupsOfFlat(init);
      assert forall i :: 0 <= i < |init| ==> init[i].demandId == Keys(Flat(init))[i];
      assert last == gs[|gs| - 1];
      GroupsAppend(Flat(init), last);
    }
  }

  /** Laying groups end to end and grouping again gives the same groups back exactly
      when they are a grouping at all. */
  lemma RegroupingExactly(gs: seq<Group>)
    ensures Groups(Flat(gs)) == gs <==> WellGrouped(gs)
  {
    GroupsAreWellGrouped(Flat(gs));
    if WellGrouped(gs) {
      GroupsOfFlat(gs);
    }
  }

  /** For every queue, grouping the grouped box changes nothing. */
  lemma GroupingTwiceIsGroupingOnce(items: seq<AttentionItem>)
    ensures Groups(Flat(Groups(items))) == Groups(items)
  {
    GroupsAreWellGrouped(items);
    GroupsOfFlat(Groups(items));
  }
}

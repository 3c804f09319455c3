/** The intrusive-list reader of nodefusion/model/readers/containers.py, for its three rules of where a
    chain ends, over memory that may be corrupt. */
module LinkedList {
  import opened Wrappers

  datatype Rule = NullTerminated(sentinel: int) | Circular | CircularHeaded

  /** A chain in memory: where its links are read from, and the rule that ends it. */
  datatype Chain = Chain(ptr: int -> Option<nat>, addr: int, first: nat, nextOff: nat, linkOff: nat, rule: Rule)
  {
    /** The k-th link of the chain; None from the first unreadable pointer on. */
    function Link(k: nat): Option<nat> {
      if k == 0 then Some(first)
      else if Link(k - 1).None? then None
      else ptr(Link(k - 1).value + nextOff)
    }

    /** Does the chain end at `link`, reached after `k` elements? */
    predicate Ends(k: nat, link: nat) {
      match rule
      case NullTerminated(sentinel) => link == sentinel
      case Circular => link == addr
      case CircularHeaded => link == 0 || (k > 0 && link == first)
    }

    ghost predicate EndsAt(k: nat) {
      Link(k).Some? && Ends(k, Link(k).value)
    }

    /** Some element before `k` had this link already. */
    ghost predicate Before(k: nat, link: nat) {
      exists j :: 0 <= j < k && Link(j) == Some(link)
    }
  }

  datatype Marker = Cycle(link: nat) | Truncated(link: nat) | BadElement(link: nat) | BrokenNext(at: int)

  datatype Value<+V> = Unavailable | Items(items: seq<V>, marker: Option<Marker>)

  /** What a read of the chain with room for `cap` elements gives: the elements behind its first
      links, none of them an end and no two the same, and the true reason for stopping there. */
  ghost predicate Reads<V>(c: Chain, elem: int -> V, cap: nat, items: seq<V>, marker: Option<Marker>) {
    var n := |items|;
    && n <= cap && Listed(c, elem, items)
    && match marker
       case None => c.EndsAt(n)
       case Some(Cycle(link)) => c.Link(n) == Some(link) && !c.Ends(n, link) && c.Before(n, link)
       case Some(Truncated(link)) => c.Link(n) == Some(link) && !c.Ends(n, link) && !c.Before(n, link) && n == cap
       case Some(BadElement(link)) =>
         c.Link(n) == Some(link) && !c.Ends(n, link) && !c.Before(n, link) && n < cap && link < c.linkOff
       case Some(BrokenNext(at)) =>
         n > 0 && c.Link(n - 1).Some? && c.Link(n) == None && at == c.Link(n - 1).value + c.nextOff
  }

  /** The elements behind the first links, pairwise distinct. */
  ghost predicate Listed<V>(c: Chain, elem: int -> V, items: seq<V>) {
    && (forall k :: 0 <= k < |items| ==> ElementAt(c, elem, k, items[k]))
    && (forall j, k :: 0 <= j < k < |items| ==> c.Link(j) != c.Link(k))
  }

  ghost predicate ElementAt<V>(c: Chain, elem: int -> V, k: nat, item: V) {
    && c.Link(k).Some? && !c.Ends(k, c.Link(k).value)
    && c.linkOff <= c.Link(k).value && item == elem(c.Link(k).value - c.linkOff)
  }

  lemma BeforeGrows(c: Chain, n: nat)
    ensures forall l: nat :: c.Before(n + 1, l) <==> c.Before(n, l) || c.Link(n) == Some(l)
  {
    forall l: nat
      ensures c.Before(n + 1, l) <==> c.Before(n, l) || c.Link(n) == Some(l)
    {
      assert c.Before(n, l) ==> c.Before(n + 1, l);
      assert c.Link(n) == Some(l) ==> c.Before(n + 1, l);
    }
  }

  lemma StartsEmpty<V>(c: Chain, elem: int -> V)
    ensures c.Link(0) == Some(c.first) && Listed(c, elem, []) && forall l: nat :: !c.Before(0, l)
  {
  }

  /** One more element. */
  lemma ListedNext<V>(c: Chain, elem: int -> V, items: seq<V>, link: nat)
    requires Listed(c, elem, items) && c.Link(|items|) == Some(link)
    requires !c.Ends(|items|, link) && !c.Before(|items|, link) && c.linkOff <= link
    ensures Listed(c, elem, items + [elem(link - c.linkOff)])
    ensures c.Link(|items| + 1) == c.ptr(link + c.nextOff)
  {
    var n, more := |items|, items + [elem(link - c.linkOff)];
    assert forall j :: 0 <= j < n ==> c.Link(j) != Some(link);
    forall k | 0 <= k < n + 1
      ensures ElementAt(c, elem, k, more[k])
      ensures k < n ==> c.Link(k) != c.Link(n)
    {
      assert k < n ==> more[k] == items[k];
    }
  }

  // ------------------------------------------------------------------ what the markers mean

  lemma {:induction false} Periodic(c: Chain, j: nat, n: nat, k: nat)
    requires j < n <= k && c.Link(j).Some? && c.Link(j) == c.Link(n)
    ensures c.Link(k) == c.Link(k - (n - j))
    decreases k
  {
    if k > n {
      Periodic(c, j, n, k - 1);
    }
  }

  /** A chain that comes back to a link without having ended never ends and never breaks: the links
      from then on are those of the loop. */
  lemma {:induction false} LoopNeverEnds(c: Chain, j: nat, n: nat, k: nat)
    requires j < n && c.Link(j).Some? && c.Link(j) == c.Link(n)
    requires forall i :: 0 <= i <= n ==> !c.EndsAt(i)
    requires c.Link(n).Some? && forall i :: 0 <= i <= n ==> c.Link(i).Some?
    ensures c.Link(k).Some? && !c.EndsAt(k)
    decreases k
  {
    if k > n {
      Periodic(c, j, n, k);
      LoopNeverEnds(c, j, n, k - (n - j));
    }
  }

  lemma {:induction false} LinksBefore(c: Chain, k: nat, i: nat)
    requires c.Link(k).Some? && i <= k
    ensures c.Link(i).Some?
    decreases k - i
  {
    if i < k {
      LinksBefore(c, k - 1, i);
    }
  }

  /** The chain ends after exactly `m` elements. */
  ghost predicate EndsFirstAt(c: Chain, m: nat) {
    c.EndsAt(m) && forall i :: 0 <= i < m ==> !c.EndsAt(i)
  }

  /** A Cycle marker is right: the chain never ends, however far one would follow it. */
  lemma CycleIsEndless<V>(c: Chain, elem: int -> V, cap: nat, items: seq<V>, link: nat, k: nat)
    requires Reads(c, elem, cap, items, Some(Cycle(link)))
    ensures c.Link(k).Some? && !c.EndsAt(k)
  {
    var n := |items|;
    var j :| 0 <= j < n && c.Link(j) == Some(link);
    forall i | 0 <= i <= n
      ensures c.Link(i).Some? && !c.EndsAt(i)
    {
      LinksBefore(c, n, i);
      if i < n {
        assert ElementAt(c, elem, i, items[i]);
      }
    }
    LoopNeverEnds(c, j, n, k);
  }

  lemma NoEndYet<V>(c: Chain, elem: int -> V, cap: nat, items: seq<V>, marker: Option<Marker>)
    requires Reads(c, elem, cap, items, marker)
    ensures forall i :: 0 <= i < |items| ==> !c.EndsAt(i)
    ensures forall i :: 0 <= i < |items| ==> c.Link(i).Some? && c.linkOff <= c.Link(i).value
  {
    forall i | 0 <= i < |items|
      ensures !c.EndsAt(i) && c.Link(i).Some? && c.linkOff <= c.Link(i).value
    {
      assert ElementAt(c, elem, i, items[i]);
    }
  }

  /** The chain ends after `m` elements, within the limit, and none of them would lie below zero. */
  ghost predicate WholeWithin(c: Chain, m: nat, cap: nat) {
    EndsFirstAt(c, m) && m <= cap && forall k :: 0 <= k < m ==> c.Link(k).Some? && c.linkOff <= c.Link(k).value
  }

  /** A read ends without a marker if and only if the chain ends after some number of elements that
      fits the limit, every element address being nonnegative, and then it holds exactly those. */
  lemma WholeChain<V>(c: Chain, elem: int -> V, cap: nat, items: seq<V>, marker: Option<Marker>)
    requires Reads(c, elem, cap, items, marker)
    ensures marker == None <==> exists m: nat :: WholeWithin(c, m, cap)
    ensures marker == None ==> WholeWithin(c, |items|, cap)
  {
    var n := |items|;
    NoEndYet(c, elem, cap, items, marker);
    if marker == None {
      assert WholeWithin(c, n, cap);
    }
    forall m: nat | WholeWithin(c, m, cap)
      ensures marker == None
    {
      StopsNowhereElse(c, elem, cap, items, marker, m);
    }
  }

  lemma StopsNowhereElse<V>(c: Chain, elem: int -> V, cap: nat, items: seq<V>, marker: Option<Marker>, m: nat)
    requires Reads(c, elem, cap, items, marker) && WholeWithin(c, m, cap)
    ensures marker == None
  {
    var n := |items|;
    NoEndYet(c, elem, cap, items, marker);
    assert n <= m;
    if marker.Some? && marker.value.Cycle? {
      CycleIsEndless(c, elem, cap, items, marker.value.link, m);
    }
    LinksBefore(c, m, n);
  }

  // ------------------------------------------------------------------ the reader

  /** The links of a list: the first behind the head, each other behind the one before. */
  ghost predicate Linked(ptr: int -> Option<nat>, headAt: int, nextOff: nat, links: seq<nat>) {
    && links != [] && ptr(headAt) == Some(links[0])
    && forall k :: 0 < k < |links| ==> ptr(links[k - 1] + nextOff) == Some(links[k])
  }

  /** Do the links end at number `k`? At the sentinel; at the list's own address; or, with a head pointer, at
      null or where they began, but not before any element. */
  ghost predicate Final(links: seq<nat>, k: nat, addr: int, rule: Rule)
    requires k < |links|
  {
    match rule
    case NullTerminated(sentinel) => links[k] == sentinel
    case Circular => links[k] == addr
    case CircularHeaded => links[k] == 0 || (k > 0 && links[k] == links[0])
  }

  /** Memory holds a list with these elements, each `linkOff` bytes before its link. */
  ghost predicate IsList<V>(ptr: int -> Option<nat>, addr: int, linkOff: nat, nextOff: nat, rule: Rule, elem: int -> V,
                            es: seq<V>) {
    exists links: seq<nat> ::
      && Linked(ptr, if rule.Circular? then addr + nextOff else addr, nextOff, links)
      && |links| == |es| + 1
      && Final(links, |es|, addr, rule)
      && forall k :: 0 <= k < |es| ==>
           !Final(links, k, addr, rule) && links[k] >= linkOff && es[k] == elem(links[k] - linkOff)
  }

  ghost function Links(c: Chain, n: nat): (links: seq<nat>)
    requires forall k :: 0 <= k <= n ==> c.Link(k).Some?
    ensures |links| == n + 1 && forall k :: 0 <= k <= n ==> Some(links[k]) == c.Link(k)
  {
    seq(n + 1, k requires 0 <= k <= n => c.Link(k).value)
  }

  lemma LinkStep(c: Chain, k: nat)
    requires k > 0 && c.Link(k - 1).Some?
    ensures c.Link(k) == c.ptr(c.Link(k - 1).value + c.nextOff)
  {
  }

  lemma SameEnd(c: Chain, links: seq<nat>, k: nat)
    requires k < |links| && links[0] == c.first && c.Link(k) == Some(links[k])
    ensures Final(links, k, c.addr, c.rule) <==> c.EndsAt(k)
  {
  }

  lemma {:induction false} FollowsLinks(c: Chain, headAt: int, links: seq<nat>, k: nat)
    requires Linked(c.ptr, headAt, c.nextOff, links) && links[0] == c.first && k < |links|
    ensures c.Link(k) == Some(links[k])
  {
    if k > 0 {
      FollowsLinks(c, headAt, links, k - 1);
    }
  }

  /** What a read without marker gives is a list. */
  lemma ReadsList<V>(c: Chain, elem: int -> V, cap: nat, items: seq<V>, headAt: int)
    requires Reads(c, elem, cap, items, None) && c.ptr(headAt) == Some(c.first)
    requires headAt == if c.rule.Circular? then c.addr + c.nextOff else c.addr
    ensures |items| <= cap && IsList(c.ptr, c.addr, c.linkOff, c.nextOff, c.rule, elem, items)
  {
    hide Chain.Ends;
    hide Chain.Link;
    hide Final;
    var n := |items|;
    NoEndYet(c, elem, cap, items, None);
    var links := Links(c, n);
    assert Some(links[0]) == c.Link(0) == Some(c.first) by {
      StartsEmpty(c, elem);
    }
    forall k | 0 < k <= n
      ensures c.ptr(links[k - 1] + c.nextOff) == Some(links[k])
    {
      LinkStep(c, k);
    }
    assert Linked(c.ptr, headAt, c.nextOff, links);
    forall k | 0 <= k <= n
      ensures Final(links, k, c.addr, c.rule) <==> c.EndsAt(k)
    {
      SameEnd(c, links, k);
    }
    forall k | 0 <= k < n
      ensures links[k] >= c.linkOff && items[k] == elem(links[k] - c.linkOff)
    {
      assert ElementAt(c, elem, k, items[k]);
    }
  }

  /** If memory holds a list within the limit, that is what is read, without marker. */
  lemma ListIsRead<V>(c: Chain, elem: int -> V, cap: nat, items: seq<V>, marker: Option<Marker>, headAt: int,
                      es: seq<V>)
    requires Reads(c, elem, cap, items, marker) && c.ptr(headAt) == Some(c.first)
    requires headAt == if c.rule.Circular? then c.addr + c.nextOff else c.addr
    requires |es| <= cap && IsList(c.ptr, c.addr, c.linkOff, c.nextOff, c.rule, elem, es)
    ensures marker == None && items == es
  {
    hide Chain.Ends;
    hide Chain.Link;
    hide Final;
    hide Reads;
    var n := |es|;
    var links: seq<nat> :|
      && Linked(c.ptr, headAt, c.nextOff, links) && |links| == n + 1
      && Final(links, n, c.addr, c.rule)
      && forall k :: 0 <= k < n ==>
           !Final(links, k, c.addr, c.rule) && links[k] >= c.linkOff && es[k] == elem(links[k] - c.linkOff);
    assert links[0] == c.first;
    forall k | 0 <= k <= n
      ensures c.Link(k) == Some(links[k]) && (Final(links, k, c.addr, c.rule) <==> c.EndsAt(k))
    {
      FollowsLinks(c, headAt, links, k);
      SameEnd(c, links, k);
    }
    assert WholeWithin(c, n, cap);
    WholeChain(c, elem, cap, items, marker);
    OnlyOneEnd(c, n, |items|, cap);
    forall k | 0 <= k < n
      ensures items[k] == es[k]
    {
      ItemsAre(c, elem, cap, items, marker, k);
    }
  }

  lemma OnlyOneEnd(c: Chain, m: nat, n: nat, cap: nat)
    requires WholeWithin(c, m, cap) && WholeWithin(c, n, cap)
    ensures m == n
  {
    hide Chain.Ends;
    hide Chain.Link;
  }

  lemma ItemsAre<V>(c: Chain, elem: int -> V, cap: nat, items: seq<V>, marker: Option<Marker>, k: nat)
    requires Reads(c, elem, cap, items, marker) && k < |items|
    ensures ElementAt(c, elem, k, items[k])
  {
    hide Chain.Ends;
    hide Chain.Link;
  }

  lemma ReadMeans<V>(c: Chain, elem: int -> V, cap: nat, items: seq<V>, marker: Option<Marker>, headAt: int)
    requires Reads(c, elem, cap, items, marker) && c.ptr(headAt) == Some(c.first)
    requires headAt == if c.rule.Circular? then c.addr + c.nextOff else c.addr
    ensures forall es :: marker == None && items == es <==>
                         |es| <= cap && IsList(c.ptr, c.addr, c.linkOff, c.nextOff, c.rule, elem, es)
  {
    hide IsList;
    hide Reads;
    forall es
      ensures marker == None && items == es <==>
              |es| <= cap && IsList(c.ptr, c.addr, c.linkOff, c.nextOff, c.rule, elem, es)
    {
      if marker == None {
        ReadsList(c, elem, cap, items, headAt);
      }
      if |es| <= cap && IsList(c.ptr, c.addr, c.linkOff, c.nextOff, c.rule, elem, es) {
        ListIsRead(c, elem, cap, items, marker, headAt, es);
      }
    }
  }

  lemma NoHeadNoList<V>(ptr: int -> Option<nat>, addr: int, linkOff: nat, nextOff: nat, rule: Rule, elem: int -> V)
    requires ptr(if rule.Circular? then addr + nextOff else addr) == None
    ensures forall es: seq<V> :: !IsList(ptr, addr, linkOff, nextOff, rule, elem, es)
  {
  }

  /** The loop of list.__call__. */
  method ReadChain<V>(ptr: int -> Option<nat>, addr: int, linkOff: int, nextOff: int, rule: Rule, elem: int -> V,
                      maxItems: int)
    returns (r: Value<V>)
    ensures var headAt := if rule.Circular? then addr + nextOff else addr;
            if linkOff < 0 || nextOff < 0 || ptr(headAt).None? then r == Unavailable
            else r.Items? && Reads(Chain(ptr, addr, ptr(headAt).value, nextOff, linkOff, rule), elem,
                                   if maxItems > 0 then maxItems else 0, r.items, r.marker)
  {
    hide Chain.Before;
    hide Chain.Ends;
    hide Chain.Link;
    hide Listed;
    if linkOff < 0 || nextOff < 0 {
      return Unavailable;
    }
    var headAt := if rule.Circular? then addr + nextOff else addr;
    var head := ptr(headAt);
    if head.None? {
      return Unavailable;
    }
    var cap: nat := if maxItems > 0 then maxItems else 0;
    var link, out := head.value, [];
    var seen: set<nat> := {};
    var c := Chain(ptr, addr, head.value, nextOff, linkOff, rule);
    StartsEmpty(c, elem);
    while true
      invariant |out| <= cap && c.Link(|out|) == Some(link)
      invariant Listed(c, elem, out)
      invariant forall l: nat :: l in seen <==> c.Before(|out|, l)
      decreases cap - |out|
    {
      if c.Ends(|out|, link) {
        return Items(out, None);
      }
      if link in seen {
        return Items(out, Some(Cycle(link)));
      }
      if |out| >= cap {
        return Items(out, Some(Truncated(link)));
      }
      if link - linkOff < 0 {
        return Items(out, Some(BadElement(link)));
      }
      ListedNext(c, elem, out, link);
      BeforeGrows(c, |out|);
      seen := seen + {link};
      out := out + [elem(link - linkOff)];
      var next := ptr(link + nextOff);
      if next.None? {
        return Items(out, Some(BrokenNext(link + nextOff)));
      }
      link := next.value;
    }
  }

  /** list.__call__. What is read without marker is a list in memory, and any list within the limit is read. */
  method Read<V>(ptr: int -> Option<nat>, addr: int, linkOff: int, nextOff: int, rule: Rule, elem: int -> V,
                 maxItems: int)
    returns (r: Value<V>)
    ensures var headAt := if rule.Circular? then addr + nextOff else addr;
            if linkOff < 0 || nextOff < 0 || ptr(headAt).None? then r == Unavailable
            else r.Items? && Reads(Chain(ptr, addr, ptr(headAt).value, nextOff, linkOff, rule), elem,
                                   if maxItems > 0 then maxItems else 0, r.items, r.marker)
    ensures r == Unavailable <==>
            linkOff < 0 || nextOff < 0 || ptr(if rule.Circular? then addr + nextOff else addr) == None
    ensures linkOff >= 0 && nextOff >= 0 ==>
              forall es :: r == Items(es, None) <==>
                           && |es| <= (if maxItems > 0 then maxItems else 0)
                           && IsList(ptr, addr, linkOff, nextOff, rule, elem, es)
  {
    r := ReadChain(ptr, addr, linkOff, nextOff, rule, elem, maxItems);
    hide IsList;
    hide Reads;
    if r.Items? {
      var headAt := if rule.Circular? then addr + nextOff else addr;
      ReadMeans(Chain(ptr, addr, ptr(headAt).value, nextOff, linkOff, rule), elem,
                if maxItems > 0 then maxItems else 0, r.items, r.marker, headAt);
    } else if linkOff >= 0 && nextOff >= 0 {
      NoHeadNoList(ptr, addr, linkOff, nextOff, rule, elem);
    }
  }
}

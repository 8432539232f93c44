/** Removing the connector's webhooks from a store: list every page first, then delete what is owned. */
module WebhookCleanup {
  import opened Common
  import opened Wrappers

  const PAGE_LIMIT: nat := 10
  const PAGE_SIZE: nat := 100

  const TOPICS: set<string> := {
    "order.created", "order.updated", "order.deleted", "order.restored",
    "product.created", "product.updated", "product.deleted", "product.restored"
  }

  /** A parsed delivery address; `extras` says whether it carries a query, a fragment or credentials. */
  datatype Address = Address(origin: string, pathname: string, extras: bool)

  /** An entry of the remote list; a field of an unexpected type is `None`, as is an address that does not parse. */
  datatype Hook = Hook(id: Option<int>, topic: Option<string>, name: Option<string>, address: Option<Address>)

  /** Where the store's hooks have to point. */
  datatype Route = Route(origin: string, endpointKey: string)

  /** A hook of ours by topic, name, id and path. */
  predicate OnRoute(h: Hook, r: Route) {
    && h.topic.Some? && h.topic.value in TOPICS
    && h.name == Some("WCTM Connector: " + h.topic.value)
    && h.id.Some? && 0 < h.id.value <= MAX_SAFE_INTEGER
    && h.address.Some? && h.address.value.pathname == "/api/webhooks/woocommerce/" + r.endpointKey
  }

  /** On the path, but at another origin or with extras: the cleanup gives up. */
  predicate Foreign(h: Hook, r: Route) {
    OnRoute(h, r) && (h.address.value.origin != r.origin || h.address.value.extras)
  }

  predicate Owned(h: Hook, r: Route) {
    OnRoute(h, r) && !Foreign(h, r)
  }

  /** Ours are the hooks that the connector names after one of its topics, at the store's own address. */
  lemma OwnedIff(h: Hook, r: Route)
    ensures Owned(h, r) <==>
              && h.topic != None && h.name == Some("WCTM Connector: " + h.topic.value)
              && h.topic.value in {"order.created", "order.updated", "order.deleted", "order.restored",
                                   "product.created", "product.updated", "product.deleted", "product.restored"}
              && h.id != None && 1 <= h.id.value <= 9_007_199_254_740_991
              && h.address == Some(Address(r.origin, "/api/webhooks/woocommerce/" + r.endpointKey, false))
    ensures Foreign(h, r) <==>
              && !Owned(h, r) && h.address != None
              && Owned(h.(address := Some(Address(r.origin, h.address.value.pathname, false))), r)
  {
  }

  /** The distinct ids of the owned ones among the first `n` hooks, in list order. */
  function OwnedIds(hooks: seq<Hook>, r: Route, n: nat): seq<int>
    requires n <= |hooks|
    decreases n
  {
    if n == 0 then []
    else if Owned(hooks[n - 1], r) && hooks[n - 1].id.value !in OwnedIds(hooks, r, n - 1) then
      OwnedIds(hooks, r, n - 1) + [hooks[n - 1].id.value]
    else OwnedIds(hooks, r, n - 1)
  }

  lemma {:induction false} OwnedIdsAre(hooks: seq<Hook>, r: Route, n: nat)
    requires n <= |hooks|
    ensures forall id :: id in OwnedIds(hooks, r, n) <==>
              exists i :: 0 <= i < n && Owned(hooks[i], r) && hooks[i].id.value == id
    ensures forall i, j | 0 <= i < j < |OwnedIds(hooks, r, n)| :: OwnedIds(hooks, r, n)[i] != OwnedIds(hooks, r, n)[j]
    decreases n
  {
    if n > 0 {
      OwnedIdsAre(hooks, r, n - 1);
    }
  }

  /** What the deletion of the ids leaves of the first `n` hooks. */
  function Without(hooks: seq<Hook>, ids: set<int>, n: nat): seq<Hook>
    requires n <= |hooks|
    decreases n
  {
    if n == 0 then []
    else if hooks[n - 1].id.Some? && hooks[n - 1].id.value in ids then Without(hooks, ids, n - 1)
    else Without(hooks, ids, n - 1) + [hooks[n - 1]]
  }

  function PageEnd(count: nat, page: nat): nat {
    if PAGE_SIZE * page < count then PAGE_SIZE * page else count
  }

  /** The fate of a delete request; a lost answer may follow a deletion that was carried out. */
  datatype DeleteAnswer = Deleted | Refused | Lost(applied: bool)

  /** Which listings succeed, and the fate of each deletion. */
  datatype Network = Network(lists: nat -> bool, deletes: int -> DeleteAnswer)

  /** Every page up to the short one can be listed, none shows a foreign hook, and there is a short one in reach. */
  predicate Enumerable(hooks: seq<Hook>, r: Route, network: Network) {
    && |hooks| < PAGE_LIMIT * PAGE_SIZE
    && (forall page: nat | 1 <= page <= |hooks| / PAGE_SIZE + 1 :: network.lists(page))
    && (forall i | 0 <= i < |hooks| :: !Foreign(hooks[i], r))
  }

  function Remaining(hooks: seq<Hook>, ids: set<int>): seq<Hook> {
    Without(hooks, ids, |hooks|)
  }

  lemma {:induction false} WithoutNone(hooks: seq<Hook>, n: nat)
    requires n <= |hooks|
    ensures Without(hooks, {}, n) == hooks[..n]
    decreases n
  {
    if n > 0 {
      WithoutNone(hooks, n - 1);
      assert hooks[..n] == hooks[..n - 1] + [hooks[n - 1]];
    }
  }

  lemma {:induction false} WithoutAppend(hooks: seq<Hook>, h: Hook, ids: set<int>, n: nat)
    requires n <= |hooks|
    ensures Without(hooks + [h], ids, n) == Without(hooks, ids, n)
    decreases n
  {
    if n > 0 {
      WithoutAppend(hooks, h, ids, n - 1);
    }
  }

  /** Deleting one more id from what the earlier deletions left. */
  lemma {:induction false} WithoutOneMore(hooks: seq<Hook>, ids: set<int>, id: int, n: nat)
    requires n <= |hooks|
    ensures Remaining(Without(hooks, ids, n), {id}) == Without(hooks, ids + {id}, n)
    decreases n
  {
    if n > 0 {
      WithoutOneMore(hooks, ids, id, n - 1);
      WithoutAppend(Without(hooks, ids, n - 1), hooks[n - 1], {id}, |Without(hooks, ids, n - 1)|);
    }
  }

  lemma {:induction false} WithoutMeans(hooks: seq<Hook>, ids: set<int>, n: nat, h: Hook)
    requires n <= |hooks|
    ensures h in Without(hooks, ids, n) <==> h in hooks[..n] && !(h.id.Some? && h.id.value in ids)
    decreases n
  {
    if n > 0 {
      WithoutMeans(hooks, ids, n - 1, h);
      assert hooks[..n] == hooks[..n - 1] + [hooks[n - 1]];
    }
  }

  function IdSet(ids: seq<int>): set<int> {
    set id | id in ids
  }

  /** When the store gives each hook its own id, a complete cleanup removes the owned hooks and nothing else. */
  lemma ExactlyOwnedRemoved(hooks: seq<Hook>, r: Route, h: Hook)
    requires forall i, j | 0 <= i < j < |hooks| && hooks[i].id.Some? :: hooks[i].id != hooks[j].id
    ensures h in Remaining(hooks, IdSet(OwnedIds(hooks, r, |hooks|))) <==>
              && h in hooks
              && !(&& h.topic != None && h.topic.value in TOPICS && h.name == Some("WCTM Connector: " + h.topic.value)
                   && h.id != None && 1 <= h.id.value <= 9_007_199_254_740_991
                   && h.address == Some(Address(r.origin, "/api/webhooks/woocommerce/" + r.endpointKey, false)))
  {
    OwnedIff(h, r);
    OwnedIdsAre(hooks, r, |hooks|);
    var ids := OwnedIds(hooks, r, |hooks|);
    WithoutMeans(hooks, IdSet(ids), |hooks|, h);
    assert hooks[..|hooks|] == hooks;
    if h in hooks && h.id.Some? && h.id.value in ids {
      var i :| 0 <= i < |hooks| && Owned(hooks[i], r) && hooks[i].id.value == h.id.value;
      var j :| 0 <= j < |hooks| && hooks[j] == h;
      assert i == j;
    }
    if h in hooks && Owned(h, r) {
      var j :| 0 <= j < |hooks| && hooks[j] == h;
      assert h.id.value in ids;
    }
  }

  /** The request took effect at the store, whatever became of the answer. */
  predicate Carried(a: DeleteAnswer) {
    a.Deleted? || (a.Lost? && a.applied)
  }

  /** How many of the ids are deleted and answered for before a request fails. */
  function Answered(ids: seq<int>, network: Network, i: nat): nat
    requires i <= |ids|
    decreases |ids| - i
  {
    if i < |ids| && network.deletes(ids[i]).Deleted? then Answered(ids, network, i + 1) else i
  }

  /** How many are gone from the store then: one more when the failing request was carried out. */
  function Gone(ids: seq<int>, network: Network): nat {
    var answered := Answered(ids, network, 0);
    if answered < |ids| && Carried(network.deletes(ids[answered])) then answered + 1 else answered
  }

  /** A deletion counts as carried out at the store when it was answered for, or when only its answer was lost. */
  lemma GoneMeans(ids: seq<int>, network: Network)
    ensures var answered := Answered(ids, network, 0);
            && (answered < |ids| ==>
                  && network.deletes(ids[answered]) != Deleted
                  && Gone(ids, network) == answered + if network.deletes(ids[answered]) == Lost(true) then 1 else 0)
            && (answered == |ids| ==> Gone(ids, network) == |ids|)
  {
    AnsweredMeans(ids, network, 0);
    AnsweredStops(ids, network, 0);
  }

  lemma {:induction false} AnsweredStops(ids: seq<int>, network: Network, i: nat)
    requires i <= |ids|
    ensures var n := Answered(ids, network, i);
            n < |ids| ==> network.deletes(ids[n]) != Deleted
    decreases |ids| - i
  {
    AnsweredMeans(ids, network, i);
    if i < |ids| && network.deletes(ids[i]).Deleted? {
      AnsweredStops(ids, network, i + 1);
    }
  }

  lemma {:induction false} AnsweredMeans(ids: seq<int>, network: Network, i: nat)
    requires i <= |ids|
    ensures i <= Answered(ids, network, i) <= |ids|
    ensures forall j | i <= j < Answered(ids, network, i) :: network.deletes(ids[j]).Deleted?
    ensures Answered(ids, network, i) < |ids| ==> !network.deletes(ids[Answered(ids, network, i)]).Deleted?
    decreases |ids| - i
  {
    if i < |ids| && network.deletes(ids[i]).Deleted? {
      AnsweredMeans(ids, network, i + 1);
    }
  }

  /** The store's webhook list. */
  class RemoteSite {
    var hooks: seq<Hook>

    constructor (hooks: seq<Hook>)
      ensures this.hooks == hooks
    {
      this.hooks := hooks;
    }

    /** One page of the list, if the request succeeds. */
    method List(page: nat, network: Network) returns (items: Option<seq<Hook>>)
      requires page >= 1
      ensures items == if !network.lists(page) then None
                       else if PAGE_SIZE * (page - 1) >= |hooks| then Some([])
                       else Some(hooks[PAGE_SIZE * (page - 1)..PageEnd(|hooks|, page)])
    {
      if !network.lists(page) {
        return None;
      }
      if PAGE_SIZE * (page - 1) >= |hooks| {
        return Some([]);
      }
      items := Some(hooks[PAGE_SIZE * (page - 1)..PageEnd(|hooks|, page)]);
    }

    method Delete(id: int, network: Network) returns (deleted: bool)
      modifies this
      ensures deleted == network.deletes(id).Deleted?
      ensures hooks == if Carried(network.deletes(id)) then Remaining(old(hooks), {id}) else old(hooks)
    {
      deleted := network.deletes(id).Deleted?;
      if Carried(network.deletes(id)) {
        hooks := Remaining(hooks, {id});
      }
    }
  }

  /** The owned ids of one page are added to those found before; a foreign hook ends the enumeration. */
  method CollectPage(page: seq<Hook>, r: Route, found: seq<int>, ghost hooks: seq<Hook>, ghost start: nat)
    returns (ids: seq<int>, foreign: bool)
    requires start + |page| <= |hooks| && page == hooks[start..start + |page|]
    requires found == OwnedIds(hooks, r, start)
    ensures foreign <==> exists i :: start <= i < start + |page| && Foreign(hooks[i], r)
    ensures !foreign ==> ids == OwnedIds(hooks, r, start + |page|)
  {
    ids := found;
    for i := 0 to |page|
      invariant ids == OwnedIds(hooks, r, start + i)
      invariant forall j | start <= j < start + i :: !Foreign(hooks[j], r)
    {
      var h := page[i];
      assert h == hooks[start + i];
      if OnRoute(h, r) {
        if Foreign(h, r) {
          return ids, true;
        }
        if h.id.value !in ids {
          ids := ids + [h.id.value];
        }
      }
    }
    foreign := false;
  }

  /** The pages before `page` are full, were listed, and show nothing foreign. */
  ghost predicate PagesSeen(hooks: seq<Hook>, r: Route, network: Network, page: nat) {
    && page >= 1 && PAGE_SIZE * (page - 1) <= |hooks|
    && (forall p: nat | 1 <= p < page :: network.lists(p))
    && (forall i | 0 <= i < PAGE_SIZE * (page - 1) :: !Foreign(hooks[i], r))
  }

  lemma ShortPageEnds(hooks: seq<Hook>, r: Route, network: Network, page: nat, end: nat)
    requires PagesSeen(hooks, r, network, page) && page <= PAGE_LIMIT && network.lists(page)
    requires end == PageEnd(|hooks|, page) && end - PAGE_SIZE * (page - 1) < PAGE_SIZE
    requires forall i | PAGE_SIZE * (page - 1) <= i < end :: !Foreign(hooks[i], r)
    ensures end == |hooks| && Enumerable(hooks, r, network)
  {
  }

  lemma BadPageEnds(hooks: seq<Hook>, r: Route, network: Network, page: nat)
    requires PagesSeen(hooks, r, network, page) && page <= PAGE_LIMIT
    requires !network.lists(page)
             || exists i :: PAGE_SIZE * (page - 1) <= i < PageEnd(|hooks|, page) && Foreign(hooks[i], r)
    ensures !Enumerable(hooks, r, network)
  {
    assert page <= |hooks| / PAGE_SIZE + 1;
  }

  datatype PageResult = GiveUp | Last(ids: seq<int>) | More(ids: seq<int>)

  /** One turn of the page loop. */
  method EnumeratePage(site: RemoteSite, r: Route, network: Network, page: nat, found: seq<int>)
    returns (result: PageResult)
    requires page <= PAGE_LIMIT && PagesSeen(site.hooks, r, network, page)
    requires found == OwnedIds(site.hooks, r, PAGE_SIZE * (page - 1))
    ensures result.GiveUp? ==> !Enumerable(site.hooks, r, network)
    ensures result.Last? ==> Enumerable(site.hooks, r, network) && result.ids == OwnedIds(site.hooks, r, |site.hooks|)
    ensures result.More? ==>
              && PagesSeen(site.hooks, r, network, page + 1)
              && result.ids == OwnedIds(site.hooks, r, PAGE_SIZE * page)
  {
    var items := site.List(page, network);
    ghost var hooks, start, end := site.hooks, PAGE_SIZE * (page - 1), PageEnd(|site.hooks|, page);
    if items.None? {
      BadPageEnds(hooks, r, network, page);
      return GiveUp;
    }
    assert |items.value| == end - start;
    var collected, foreign := CollectPage(items.value, r, found, hooks, start);
    if foreign {
      BadPageEnds(hooks, r, network, page);
      return GiveUp;
    }
    if |items.value| < PAGE_SIZE {
      ShortPageEnds(hooks, r, network, page, end);
      return Last(collected);
    }
    result := More(collected);
  }

  /** The page loop: all owned ids, or nothing when a request fails, a hook is foreign, or there are too many pages. */
  method Enumerate(site: RemoteSite, r: Route, network: Network) returns (ids: Option<seq<int>>)
    ensures ids.Some? <==> Enumerable(site.hooks, r, network)
    ensures ids.Some? ==> ids.value == OwnedIds(site.hooks, r, |site.hooks|)
  {
    var found: seq<int> := [];
    for page := 1 to PAGE_LIMIT + 1
      invariant PagesSeen(site.hooks, r, network, page)
      invariant found == OwnedIds(site.hooks, r, PAGE_SIZE * (page - 1))
    {
      var result := EnumeratePage(site, r, network, page, found);
      match result
      case GiveUp => return None;
      case Last(all) => return Some(all);
      case More(some) => found := some;
    }
    ids := None;
  }

  /**
  `removeOwnedWooWebhooks`: `origin` is `None` when the connector's origin is not a plain https origin. The count is of
  the deletions answered for; a lost answer may leave one more hook gone than counted.
  */
  method RemoveOwnedWebhooks(site: RemoteSite, endpointKey: Option<string>, origin: Option<string>, network: Network)
    returns (complete: bool, removed: nat)
    modifies site
    ensures endpointKey.None? ==> complete && removed == 0 && site.hooks == old(site.hooks)
    ensures endpointKey.Some? && origin.None? ==> !complete && removed == 0 && site.hooks == old(site.hooks)
    ensures endpointKey.Some? && origin.Some? ==>
              var r := Route(origin.value, endpointKey.value);
              var ids := OwnedIds(old(site.hooks), r, |old(site.hooks)|);
              && (complete <==>
                    Enumerable(old(site.hooks), r, network) && forall id | id in ids :: network.deletes(id).Deleted?)
              && (!Enumerable(old(site.hooks), r, network) ==> removed == 0 && site.hooks == old(site.hooks))
              && (Enumerable(old(site.hooks), r, network) ==>
                    && removed == Answered(ids, network, 0) <= Gone(ids, network) <= |ids|
                    && site.hooks == Remaining(old(site.hooks), IdSet(ids[..Gone(ids, network)])))
  {
    ghost var start := site.hooks;
    WithoutNone(start, |start|);
    assert start[..|start|] == start;
    removed := 0;
    if endpointKey.None? {
      return true, 0;
    }
    if origin.None? {
      return false, 0;
    }
    var r := Route(origin.value, endpointKey.value);
    assert IdSet(OwnedIds(start, r, |start|)[..0]) == {};
    var found := Enumerate(site, r, network);
    if found.None? {
      return false, 0;
    }
    complete, removed := DeleteAll(site, found.value, network);
  }

  /** The delete loop. */
  method DeleteAll(site: RemoteSite, ids: seq<int>, network: Network) returns (complete: bool, removed: nat)
    modifies site
    ensures complete <==> forall id | id in ids :: network.deletes(id).Deleted?
    ensures removed == Answered(ids, network, 0) <= Gone(ids, network) <= |ids|
    ensures site.hooks == Remaining(old(site.hooks), IdSet(ids[..Gone(ids, network)]))
  {
    ghost var start := site.hooks;
    WithoutNone(start, |start|);
    AnsweredMeans(ids, network, 0);
    assert start[..|start|] == start && IdSet(ids[..0]) == {};
    removed := 0;
    for i := 0 to |ids|
      invariant removed == i <= Answered(ids, network, 0)
      invariant site.hooks == Remaining(start, IdSet(ids[..i]))
    {
      var deleted := site.Delete(ids[i], network);
      WithoutOneMore(start, IdSet(ids[..i]), ids[i], |start|);
      assert IdSet(ids[..i + 1]) == IdSet(ids[..i]) + {ids[i]};
      if !deleted {
        assert Answered(ids, network, 0) == i && !network.deletes(ids[i]).Deleted?;
        return false, removed;
      }
      removed := removed + 1;
    }
    assert forall id | id in ids :: exists j :: 0 <= j < |ids| && ids[j] == id;
    complete := true;
  }
}

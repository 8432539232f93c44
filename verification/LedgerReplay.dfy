/** Replaying the erasure ledger after a restore: what is already complete is skipped, the rest is erased again. */
module LedgerReplay {
  import opened Common
  import opened Wrappers
  import opened Erasure

  datatype Entry =
    | TenantEntry(tenant: TenantId, name: Digest<Name>)
    | IdentityEntry(member: Member, email: Digest<Email>)
    | StoreEntry(storeTenant: TenantId, store: StoreId, url: Digest<Url>)

  /**
   What the erasures of one replay draw on: the clock, the random bytes, and the order in which members are listed.
  */
  datatype Setting = Setting(now: nat -> int, randoms: nat -> Randoms, order: TenantId -> seq<UserId>)

  /** A replay starts from a consistent database and its clock never goes back. */
  ghost predicate Sound(db: Database, s: Setting) {
    && Consistent(db)
    && (forall t | t in db.tenants :: Lists(db, t, s.order(t)))
    && (forall i: nat, j: nat | i <= j :: s.now(i) <= s.now(j))
  }

  datatype Turn = Skipped | Stopped | Due(db: Database, erasures: set<Erasure>)

  function StoreOf(db: Database, tenant: TenantId, s: StoreId): Option<Store> {
    if s in db.stores && db.stores[s].tenant == tenant then Some(db.stores[s]) else None
  }

  /** The erasure that a pending entry asks for. */
  function Erasing(db: Database, e: Entry, i: nat, s: Setting): Turn {
    match e
    case TenantEntry(tenant, name) =>
      var users := s.order(tenant);
      var erased := EraseTenant(db, tenant, name, users, s.now(i), s.randoms(i));
      if erased.None? then Stopped
      else Due(erased.value, LoopErasures(db, tenant, users, |users|, s.now(i), s.randoms(i)))
    case IdentityEntry(m, email) =>
      var erased := EraseIdentity(db, m, s.now(i), Some(email), s.randoms(i));
      if erased.None? then Stopped else Due(erased.value, {Erasure(m, s.now(i))})
    case StoreEntry(tenant, store, _) =>
      if store in db.stores then Due(StoreErasedFrom(db, tenant, store, s.now(i)), {}) else Stopped
  }

  /** One entry: skip it, stop because it does not match the restored data, or count it and, when executing, erase. */
  function EntryTurn(db: Database, e: Entry, i: nat, s: Setting, execute: bool): Turn {
    match e
    case TenantEntry(tenant, name) =>
      if tenant !in db.tenants then Stopped
      else if TenantComplete(db, tenant, name) then Skipped
      else if Hash(db.tenants[tenant].name) != name then Stopped
      else if execute then Erasing(db, e, i, s)
      else Due(db, {})
    case IdentityEntry(m, email) =>
      if m !in db.members then if m.user in db.users then Stopped else Skipped
      else if IdentityComplete(db, m, Some(email)) then Skipped
      else if m.user !in db.users || Hash(db.users[m.user].email) != email then Stopped
      else if execute then Erasing(db, e, i, s)
      else Due(db, {})
    case StoreEntry(tenant, store, url) =>
      var row := StoreOf(db, tenant, store);
      if row.None? || (row.value.url == ErasedUrl(store) && row.value.disconnected) then Skipped
      else if Hash(row.value.url) != url then Stopped
      else if execute then Erasing(db, e, i, s)
      else Due(db, {})
  }

  /** How entries are handled: the database, the entry and its position give the turn. */
  type Handler = (Database, Entry, nat) -> Turn

  function HandlerOf(s: Setting, execute: bool): Handler {
    (db: Database, e: Entry, i: nat) => EntryTurn(db, e, i, s, execute)
  }

  /** The database, the count of pending entries and the members' erasures so far. */
  datatype Progress = Progress(db: Database, pending: nat, erasures: set<Erasure>)

  /** `replayLedger` over the first `n` entries: `None` when it stops. */
  function Replay(db: Database, entries: seq<Entry>, n: nat, handler: Handler): Option<Progress>
    requires n <= |entries|
    decreases n
  {
    if n == 0 then Some(Progress(db, 0, {}))
    else
      var p :- Replay(db, entries, n - 1, handler);
      match handler(p.db, entries[n - 1], n - 1)
      case Stopped => None
      case Skipped => Some(p)
      case Due(next, erasures) => Some(Progress(next, p.pending + 1, p.erasures + erasures))
  }

  /** The entry would be skipped. */
  predicate Settled(db: Database, e: Entry) {
    match e
    case TenantEntry(tenant, name) => TenantComplete(db, tenant, name)
    case IdentityEntry(m, email) =>
      if m !in db.members then m.user !in db.users else IdentityComplete(db, m, Some(email))
    case StoreEntry(tenant, store, _) =>
      var row := StoreOf(db, tenant, store);
      row.None? || (row.value.url == ErasedUrl(store) && row.value.disconnected)
  }

  /** What the entry names is there and has the entry's fingerprint. */
  predicate Matching(db: Database, e: Entry) {
    match e
    case TenantEntry(tenant, name) => tenant in db.tenants && Hash(db.tenants[tenant].name) == name
    case IdentityEntry(m, email) => m in db.members && m.user in db.users && Hash(db.users[m.user].email) == email
    case StoreEntry(tenant, store, url) => StoreOf(db, tenant, store).Some? && Hash(db.stores[store].url) == url
  }

  lemma SettledIsSkipped(db: Database, e: Entry, i: nat, s: Setting, execute: bool)
    ensures Settled(db, e) <==> EntryTurn(db, e, i, s, execute).Skipped?
  {
  }

  /** The check of an entry, in the tables' own terms: what counts as done, and what as the thing it was written for. */
  lemma EntryMeans(db: Database, e: Entry)
    ensures e.StoreEntry? ==>
              && (Settled(db, e) <==>
                    || e.store !in db.stores || db.stores[e.store].tenant != e.storeTenant
                    || (db.stores[e.store].url == ErasedUrl(e.store) && db.stores[e.store].disconnected))
              && (Matching(db, e) <==>
                    && e.store in db.stores && db.stores[e.store].tenant == e.storeTenant
                    && Hash(db.stores[e.store].url) == e.url)
    ensures e.IdentityEntry? ==>
              && (e.member !in db.members ==> (Settled(db, e) <==> e.member.user !in db.users) && !Matching(db, e))
              && (e.member in db.members && e.member.user in db.users ==>
                    (Matching(db, e) <==> Hash(db.users[e.member.user].email) == e.email))
    ensures e.TenantEntry? ==>
              && (Settled(db, e) <==> TenantComplete(db, e.tenant, e.name))
              && (Matching(db, e) <==> e.tenant in db.tenants && Hash(db.tenants[e.tenant].name) == e.name)
  {
  }

  /**
   An executing turn passes over what is settled and stops at what neither is nor matches; the rest it erases, except
   that a tenant is erased only after all its stores.
  */
  lemma ExecutingTurn(db: Database, e: Entry, i: nat, s: Setting)
    ensures var turn := EntryTurn(db, e, i, s, true);
            && (turn.Skipped? <==> Settled(db, e))
            && (turn.Due? <==>
                  && !Settled(db, e) && Matching(db, e)
                  && (e.TenantEntry? ==>
                        forall x | x in db.stores && db.stores[x].tenant == e.tenant :: StoreErased(x, db.stores[x])))
            && (turn.Due? && e.StoreEntry? ==>
                  e.store in db.stores && turn.db == StoreErasedFrom(db, e.storeTenant, e.store, s.now(i)))
            && (turn.Due? && e.IdentityEntry? ==>
                  && EraseIdentity(db, e.member, s.now(i), Some(e.email), s.randoms(i)) == Some(turn.db)
                  && turn.erasures == {Erasure(e.member, s.now(i))})
            && (turn.Due? && e.TenantEntry? ==>
                  && EraseTenant(db, e.tenant, e.name, s.order(e.tenant), s.now(i), s.randoms(i)) == Some(turn.db)
                  && turn.erasures ==
                       LoopErasures(db, e.tenant, s.order(e.tenant), |s.order(e.tenant)|, s.now(i), s.randoms(i)))
  {
    if e.TenantEntry? {
      LoopFrame(db, e.tenant, s.order(e.tenant), |s.order(e.tenant)|, s.now(i), s.randoms(i));
    }
  }

  // Without execution

  function Counting(db: Database, e: Entry): Turn {
    if Settled(db, e) then Skipped else if Matching(db, e) then Due(db, {}) else Stopped
  }

  lemma DryTurn(db: Database, e: Entry, i: nat, s: Setting)
    ensures EntryTurn(db, e, i, s, false) == Counting(db, e)
  {
  }

  /** The entries among the first `n` that are not settled. */
  function Unsettled(db: Database, entries: seq<Entry>, n: nat): (count: nat)
    requires n <= |entries|
    decreases n
  {
    if n == 0 then 0 else Unsettled(db, entries, n - 1) + if Settled(db, entries[n - 1]) then 0 else 1
  }

  predicate AllMatching(db: Database, entries: seq<Entry>, n: nat)
    requires n <= |entries|
  {
    forall j | 0 <= j < n :: Settled(db, entries[j]) || Matching(db, entries[j])
  }

  lemma {:induction false} CountingReplay(db: Database, entries: seq<Entry>, n: nat, handler: Handler)
    requires n <= |entries| && forall j | 0 <= j < n :: handler(db, entries[j], j) == Counting(db, entries[j])
    ensures Replay(db, entries, n, handler) ==
              if AllMatching(db, entries, n) then Some(Progress(db, Unsettled(db, entries, n), {})) else None
    decreases n
  {
    if n > 0 {
      CountingReplay(db, entries, n - 1, handler);
      var none: set<Erasure> := {};
      assert none + none == none;
    }
  }

  /**
   Without execution a replay changes nothing. It ends in an error exactly when some entry is neither complete nor
   matched by the restored data, and otherwise counts the entries that are not complete.
  */
  lemma DryReplay(db: Database, entries: seq<Entry>, n: nat, s: Setting)
    requires n <= |entries|
    ensures Replay(db, entries, n, HandlerOf(s, false)) ==
              if AllMatching(db, entries, n) then Some(Progress(db, Unsettled(db, entries, n), {})) else None
  {
    forall j | 0 <= j < n
      ensures HandlerOf(s, false)(db, entries[j], j) == Counting(db, entries[j])
    {
      DryTurn(db, entries[j], j, s);
    }
    CountingReplay(db, entries, n, HandlerOf(s, false));
  }

  // One turn with execution

  /** What a turn leaves of who exists, and of the tenant, store and audit tables. */
  predicate TablesKept(db: Database, after: Database, e: Entry) {
    && SameSubjects(db, after) && SameRefs(db, after) && db.audits <= after.audits
    && (forall t | t in db.tenants && !(e.TenantEntry? && e.tenant == t) :: after.tenants[t] == db.tenants[t])
    && (forall x | x in db.stores && !(e.StoreEntry? && e.store == x) :: after.stores[x] == db.stores[x])
  }

  lemma TurnFrame(db: Database, e: Entry, i: nat, s: Setting)
    requires EntryTurn(db, e, i, s, true).Due?
    ensures TablesKept(db, EntryTurn(db, e, i, s, true).db, e)
  {
    match e
    case TenantEntry(tenant, _) => LoopFrame(db, tenant, s.order(tenant), |s.order(tenant)|, s.now(i), s.randoms(i));
    case IdentityEntry(m, _) => IdentityFrame(db, m, s.now(i), s.randoms(i));
    case StoreEntry(tenant, store, _) => StoreFrame(db, tenant, store, s.now(i));
  }

  lemma SoundStays(db: Database, after: Database, s: Setting)
    requires Sound(db, s) && SameSubjects(db, after)
    ensures Sound(after, s)
  {
  }

  /** The entry's erasure is about the member. */
  predicate About(e: Entry, m: Member) {
    (e.IdentityEntry? && e.member == m) || (e.TenantEntry? && e.tenant == m.tenant)
  }

  lemma TenantTurnTracks(db: Database, log: set<Erasure>, e: Entry, i: nat, s: Setting, m: Member)
    requires Sound(db, s) && e.TenantEntry? && EntryTurn(db, e, i, s, true).Due?
    requires Tracked(db, log, m) || (m in db.members && e.tenant == m.tenant)
    ensures var turn := EntryTurn(db, e, i, s, true);
            Tracked(turn.db, log + turn.erasures, m)
  {
    TenantTracks(db, log, e.tenant, e.name, s.order(e.tenant), s.now(i), s.randoms(i), m);
  }

  /** A turn keeps track of the members it is about and of every member tracked before. */
  lemma TurnTracks(db: Database, log: set<Erasure>, e: Entry, i: nat, s: Setting, m: Member)
    requires Sound(db, s) && EntryTurn(db, e, i, s, true).Due?
    requires Tracked(db, log, m) || (m in db.members && About(e, m))
    ensures var turn := EntryTurn(db, e, i, s, true);
            Tracked(turn.db, log + turn.erasures, m)
  {
    match e
    case TenantEntry(_, _) => TenantTurnTracks(db, log, e, i, s, m);
    case IdentityEntry(x, _) => IdentityTracks(db, log, x, s.now(i), s.randoms(i), m);
    case StoreEntry(tenant, store, _) =>
      StoreTracks(db, log, tenant, store, s.now(i), m);
      assert log + {} == log;
  }

  lemma TurnStamps(db: Database, log: set<Erasure>, e: Entry, i: nat, s: Setting)
    requires EntryTurn(db, e, i, s, true).Due? && Stamped(db, log) && UpTo(log, s.now(i))
    ensures var turn := EntryTurn(db, e, i, s, true);
            Stamped(turn.db, log + turn.erasures) && UpTo(log + turn.erasures, s.now(i))
  {
    match e
    case TenantEntry(tenant, name) =>
      TenantStamps(db, log, tenant, name, s.order(tenant), s.now(i), s.randoms(i));
      LoopTimes(db, tenant, s.order(tenant), |s.order(tenant)|, s.now(i), s.randoms(i));
    case IdentityEntry(x, _) => IdentityStamps(db, log, x, s.now(i), s.randoms(i));
    case StoreEntry(tenant, store, _) =>
      StoreStamps(db, log, tenant, store, s.now(i));
      assert log + {} == log;
  }

  lemma TurnKeepsEmail(db: Database, e: Entry, i: nat, s: Setting, m: Member)
    requires EntryTurn(db, e, i, s, true).Due?
    ensures KeepsEmail(db, EntryTurn(db, e, i, s, true).db, m)
  {
    match e
    case TenantEntry(tenant, _) =>
      LoopKeepsEmail(db, tenant, s.order(tenant), |s.order(tenant)|, s.now(i), s.randoms(i), m);
    case IdentityEntry(x, _) => IdentityKeepsEmail(db, x, s.now(i), s.randoms(i), m);
    case StoreEntry(tenant, store, _) => StoreFrame(db, tenant, store, s.now(i));
  }

  /** No chat is in use for the tenant. */
  predicate NoChatFor(db: Database, t: TenantId) {
    forall k | k in db.chats :: db.chats[k].activeTenant != Some(t)
  }

  lemma IdentityKeepsChats(db: Database, m: Member, now: int, randoms: Randoms, t: TenantId)
    requires m in db.members && m.user in db.users && NoChatFor(db, t)
    ensures NoChatFor(IdentityErasedFrom(db, m, now, randoms), t)
  {
    var after := IdentityErasedFrom(db, m, now, randoms);
    forall k | k in after.chats
      ensures after.chats[k].activeTenant != Some(t)
    {
      assert db.chats[k].activeTenant != Some(t);
    }
  }

  lemma {:induction false} LoopKeepsChats(db: Database, tenant: TenantId, users: seq<UserId>, n: nat, now: int,
                                          randoms: Randoms, t: TenantId)
    requires n <= |users| && NoChatFor(db, t)
    ensures NoChatFor(MembersErasedFrom(db, tenant, users, n, now, randoms), t)
    decreases n
  {
    if n > 0 {
      LoopKeepsChats(db, tenant, users, n - 1, now, randoms, t);
      var before, m := MembersErasedFrom(db, tenant, users, n - 1, now, randoms), Member(tenant, users[n - 1]);
      if !Skips(before, m) {
        IdentityKeepsChats(before, m, now, randoms, t);
      }
    }
  }

  lemma TurnKeepsChats(db: Database, e: Entry, i: nat, s: Setting, t: TenantId)
    requires EntryTurn(db, e, i, s, true).Due? && NoChatFor(db, t)
    ensures NoChatFor(EntryTurn(db, e, i, s, true).db, t)
  {
    match e
    case TenantEntry(tenant, _) =>
      LoopKeepsChats(db, tenant, s.order(tenant), |s.order(tenant)|, s.now(i), s.randoms(i), t);
      var erased := MembersErasedFrom(db, tenant, s.order(tenant), |s.order(tenant)|, s.now(i), s.randoms(i));
      assert forall k | k in erased.chats :: erased.chats[k].activeTenant != Some(t);
    case IdentityEntry(m, _) => IdentityKeepsChats(db, m, s.now(i), s.randoms(i), t);
    case StoreEntry(_, _, _) => assert forall k | k in db.chats :: db.chats[k].activeTenant != Some(t);
  }

  /** Once closed, a tenant stays closed. */
  lemma TurnKeepsClosed(db: Database, e: Entry, i: nat, s: Setting, tenant: TenantId)
    requires EntryTurn(db, e, i, s, true).Due? && Closed(db, tenant)
    ensures Closed(EntryTurn(db, e, i, s, true).db, tenant)
  {
    var after := EntryTurn(db, e, i, s, true).db;
    if e.TenantEntry? && e.tenant == tenant {
      TenantCloses(db, tenant, e.name, s.order(tenant), s.now(i), s.randoms(i));
    } else {
      TurnFrame(db, e, i, s);
      TurnKeepsChats(db, e, i, s, tenant);
      assert NoChatFor(after, tenant);
      forall x | x in after.stores && after.stores[x].tenant == tenant
        ensures StoreErased(x, after.stores[x])
      {
        assert StoreErased(x, db.stores[x]);
      }
    }
  }

  // When an entry that was settled stays so

  /** The member's last erasure was recorded with this email. */
  predicate Named(db: Database, m: Member, email: Digest<Email>) {
    m in db.members && db.members[m].Some? && IdentityErased(m, db.members[m].value, email, Shared(db, m)) in db.audits
  }

  /** The last erasure carries the entry's fingerprint, and no member concerned was outlived by one tied to it. */
  predicate Stands(db: Database, log: set<Erasure>, e: Entry) {
    match e
    case TenantEntry(tenant, name) =>
      ClosedAs(db, tenant, name) && forall m | m in db.members && m.tenant == tenant :: !Outlived(db, log, m)
    case IdentityEntry(m, email) => m in db.members ==> Named(db, m, email) && !Outlived(db, log, m)
    case StoreEntry(_, _, _) => true
  }

  /** What holds from an entry's own turn on, whatever follows. */
  predicate Held(db: Database, log: set<Erasure>, e: Entry) {
    match e
    case TenantEntry(tenant, _) =>
      Closed(db, tenant) && forall m | m in db.members && m.tenant == tenant :: Tracked(db, log, m)
    case IdentityEntry(m, email) =>
      if m !in db.members then m.user !in db.users
      else
        && m.user in db.users && Tracked(db, log, m)
        && (Shared(db, m) ==> Hash(db.users[m.user].email) == email)
    case StoreEntry(_, _, _) => Settled(db, e)
  }

  lemma EmailSplit(db: Database, m: Member, email: Digest<Email>)
    ensures IdentityComplete(db, m, Some(email)) <==>
              && IdentityComplete(db, m, None) && Named(db, m, email)
              && (Shared(db, m) ==> Hash(db.users[m.user].email) == email)
  {
    if IdentityComplete(db, m, Some(email)) {
      assert IdentityComplete(db, m, None);
    }
  }

  lemma TrackedCompleteIff(db: Database, log: set<Erasure>, m: Member)
    requires Stamped(db, log) && Tracked(db, log, m)
    ensures IdentityComplete(db, m, None) <==> !Outlived(db, log, m)
  {
    if Outlived(db, log, m) {
      OutlivedIsIncomplete(db, log, m, None);
    }
  }

  /** Of an entry that has had its turn: it is settled exactly when it stands. */
  lemma SettledIffStands(db: Database, log: set<Erasure>, e: Entry)
    requires Stamped(db, log) && Held(db, log, e)
    ensures Settled(db, e) <==> Stands(db, log, e)
  {
    match e
    case TenantEntry(tenant, name) =>
      forall m | m in db.members && m.tenant == tenant
        ensures IdentityComplete(db, m, None) <==> !Outlived(db, log, m)
      {
        TrackedCompleteIff(db, log, m);
      }
    case IdentityEntry(m, email) =>
      if m in db.members {
        EmailSplit(db, m, email);
        TrackedCompleteIff(db, log, m);
      }
    case StoreEntry(_, _, _) =>
  }

  lemma SettledIsHeld(db: Database, log: set<Erasure>, e: Entry)
    requires Settled(db, e)
    ensures Held(db, log, e)
  {
    if e.IdentityEntry? && e.member in db.members {
      EmailSplit(db, e.member, e.email);
    }
  }

  lemma TurnHolds(db: Database, log: set<Erasure>, e: Entry, i: nat, s: Setting)
    requires Sound(db, s) && EntryTurn(db, e, i, s, true).Due?
    ensures var turn := EntryTurn(db, e, i, s, true);
            Held(turn.db, log + turn.erasures, e)
  {
    var after, more := EntryTurn(db, e, i, s, true).db, log + EntryTurn(db, e, i, s, true).erasures;
    TurnFrame(db, e, i, s);
    match e
    case TenantEntry(tenant, name) =>
      TenantCloses(db, tenant, name, s.order(tenant), s.now(i), s.randoms(i));
      forall m | m in after.members && m.tenant == tenant
        ensures Tracked(after, more, m)
      {
        TurnTracks(db, log, e, i, s, m);
      }
    case IdentityEntry(m, email) =>
      TurnTracks(db, log, e, i, s, m);
      TurnKeepsEmail(db, e, i, s, m);
      SharedSame(db, after, m);
    case StoreEntry(_, _, _) =>
  }

  lemma TurnKeepsHeld(db: Database, log: set<Erasure>, e: Entry, i: nat, s: Setting, f: Entry)
    requires Sound(db, s) && EntryTurn(db, e, i, s, true).Due? && Held(db, log, f)
    ensures var turn := EntryTurn(db, e, i, s, true);
            Held(turn.db, log + turn.erasures, f)
  {
    var after, more := EntryTurn(db, e, i, s, true).db, log + EntryTurn(db, e, i, s, true).erasures;
    TurnFrame(db, e, i, s);
    match f
    case TenantEntry(tenant, _) =>
      TurnKeepsClosed(db, e, i, s, tenant);
      forall m | m in after.members && m.tenant == tenant
        ensures Tracked(after, more, m)
      {
        TurnTracks(db, log, e, i, s, m);
      }
    case IdentityEntry(m, email) =>
      if m in db.members {
        TurnTracks(db, log, e, i, s, m);
        TurnKeepsEmail(db, e, i, s, m);
        SharedSame(db, after, m);
      }
    case StoreEntry(tenant, store, _) =>
      assert store in db.stores ==> after.stores[store].tenant == db.stores[store].tenant;
  }

  /**
   Erasing for one entry keeps another settled entry settled, exactly unless it erases the member or tenant of that
   entry again under another fingerprint, or erases a member tied to one that it leaves with an earlier deletion.
  */
  lemma TurnKeepsSettledIff(db: Database, e: Entry, i: nat, s: Setting, f: Entry)
    requires Sound(db, s) && EntryTurn(db, e, i, s, true).Due? && Settled(db, f)
    ensures var turn := EntryTurn(db, e, i, s, true);
            Settled(turn.db, f) <==> Stands(turn.db, turn.erasures, f)
  {
    var turn := EntryTurn(db, e, i, s, true);
    SettledIsHeld(db, {}, f);
    TurnKeepsHeld(db, {}, e, i, s, f);
    TurnStamps(db, {}, e, i, s);
    assert {} + turn.erasures == turn.erasures;
    SettledIffStands(turn.db, turn.erasures, f);
  }

  // Whole replays

  /** What every replay with execution keeps. */
  ghost predicate Kept(db: Database, p: Progress, s: Setting, now: int) {
    && Sound(p.db, s) && SameSubjects(db, p.db) && SameRefs(db, p.db)
    && Stamped(p.db, p.erasures) && UpTo(p.erasures, now)
  }

  /** The progress after one more turn that does not stop. */
  function Next(p: Progress, turn: Turn): Progress {
    if turn.Due? then Progress(turn.db, p.pending + 1, p.erasures + turn.erasures) else p
  }

  lemma TurnKeeps(db: Database, p: Progress, e: Entry, i: nat, s: Setting, later: int)
    requires Kept(db, p, s, s.now(i)) && s.now(i) <= later && !EntryTurn(p.db, e, i, s, true).Stopped?
    ensures Kept(db, Next(p, EntryTurn(p.db, e, i, s, true)), s, later)
  {
    var turn := EntryTurn(p.db, e, i, s, true);
    if turn.Due? {
      TurnFrame(p.db, e, i, s);
      TurnStamps(p.db, p.erasures, e, i, s);
      RefsTrans(db, p.db, turn.db);
      SoundStays(p.db, turn.db, s);
    }
  }

  /** What holds at the start and is kept by every turn that does not stop holds at the end. */
  lemma {:induction false} ReplayInduction(db: Database, entries: seq<Entry>, n: nat, handler: Handler,
                                           inv: (nat, Progress) -> bool)
    requires n <= |entries| && inv(0, Progress(db, 0, {}))
    requires forall i: nat, p | i < n && Replay(db, entries, i, handler) == Some(p) && inv(i, p)
                                && !handler(p.db, entries[i], i).Stopped? ::
               inv(i + 1, Next(p, handler(p.db, entries[i], i)))
    ensures Replay(db, entries, n, handler).Some? ==> inv(n, Replay(db, entries, n, handler).value)
    decreases n
  {
    if n > 0 && Replay(db, entries, n, handler).Some? {
      ReplayInduction(db, entries, n - 1, handler, inv);
      var p := Replay(db, entries, n - 1, handler).value;
      assert inv(n - 1 + 1, Next(p, handler(p.db, entries[n - 1], n - 1)));
    }
  }

  lemma ReplayKeeps(db: Database, entries: seq<Entry>, n: nat, s: Setting)
    requires Sound(db, s) && n <= |entries| && Replay(db, entries, n, HandlerOf(s, true)).Some?
    ensures Kept(db, Replay(db, entries, n, HandlerOf(s, true)).value, s, s.now(n))
  {
    var inv := (i: nat, p: Progress) => Kept(db, p, s, s.now(i));
    forall i: nat, p | i < n && inv(i, p) && !EntryTurn(p.db, entries[i], i, s, true).Stopped?
      ensures inv(i + 1, Next(p, EntryTurn(p.db, entries[i], i, s, true)))
    {
      TurnKeeps(db, p, entries[i], i, s, s.now(i + 1));
    }
    ReplayInduction(db, entries, n, HandlerOf(s, true), inv);
  }

  lemma TurnHoldsNext(p: Progress, e: Entry, i: nat, s: Setting, f: Entry)
    requires Sound(p.db, s) && !EntryTurn(p.db, e, i, s, true).Stopped? && (f == e || Held(p.db, p.erasures, f))
    ensures var next := Next(p, EntryTurn(p.db, e, i, s, true));
            Held(next.db, next.erasures, f)
  {
    if !EntryTurn(p.db, e, i, s, true).Due? {
      SettledIsSkipped(p.db, e, i, s, true);
      SettledIsHeld(p.db, p.erasures, e);
    } else if f == e {
      TurnHolds(p.db, p.erasures, e, i, s);
    } else {
      TurnKeepsHeld(p.db, p.erasures, e, i, s, f);
    }
  }

  /** The entry was settled at the start or has had its turn. */
  predicate HadTurn(db: Database, entries: seq<Entry>, i: nat, f: Entry) {
    Settled(db, f) || (i <= |entries| && f in entries[..i])
  }

  lemma HoldsTurn(db: Database, entries: seq<Entry>, i: nat, s: Setting, f: Entry, p: Progress)
    requires i < |entries| && Kept(db, p, s, s.now(i)) && !EntryTurn(p.db, entries[i], i, s, true).Stopped?
    requires HadTurn(db, entries, i, f) ==> Held(p.db, p.erasures, f)
    ensures var next := Next(p, EntryTurn(p.db, entries[i], i, s, true));
            HadTurn(db, entries, i + 1, f) ==> Held(next.db, next.erasures, f)
  {
    assert entries[..i + 1] == entries[..i] + [entries[i]];
    if HadTurn(db, entries, i + 1, f) {
      TurnHoldsNext(p, entries[i], i, s, f);
    }
  }

  /** From then on it is held. */
  lemma ReplayHolds(db: Database, entries: seq<Entry>, n: nat, s: Setting, f: Entry)
    requires Sound(db, s) && n <= |entries| && Replay(db, entries, n, HandlerOf(s, true)).Some?
    requires HadTurn(db, entries, n, f)
    ensures var p := Replay(db, entries, n, HandlerOf(s, true)).value;
            Held(p.db, p.erasures, f)
  {
    var inv := (i: nat, p: Progress) => HadTurn(db, entries, i, f) ==> Held(p.db, p.erasures, f);
    if Settled(db, f) {
      SettledIsHeld(db, {}, f);
    }
    forall i: nat, p | i < n && Replay(db, entries, i, HandlerOf(s, true)) == Some(p) && inv(i, p)
                       && !EntryTurn(p.db, entries[i], i, s, true).Stopped?
      ensures inv(i + 1, Next(p, EntryTurn(p.db, entries[i], i, s, true)))
    {
      ReplayKeeps(db, entries, i, s);
      HoldsTurn(db, entries, i, s, f, p);
    }
    ReplayInduction(db, entries, n, HandlerOf(s, true), inv);
  }

  lemma RefsTrans(a: Database, b: Database, c: Database)
    requires SameSubjects(a, b) && SameRefs(a, b) && SameSubjects(b, c) && SameRefs(b, c)
    ensures SameSubjects(a, c) && SameRefs(a, c)
  {
    forall k | k in a.refs
      ensures SameRef(c.refs[k], a.refs[k])
    {
      assert SameRef(b.refs[k], a.refs[k]) && SameRef(c.refs[k], b.refs[k]);
    }
  }

  // What a replay leaves alone

  function TenantsOf(entries: seq<Entry>): set<TenantId> {
    set e | e in entries && e.TenantEntry? :: e.tenant
  }

  function StoresOf(entries: seq<Entry>): set<StoreId> {
    set e | e in entries && e.StoreEntry? :: e.store
  }

  lemma TurnTouches(db: Database, entries: seq<Entry>, e: Entry, i: nat, s: Setting)
    requires e in entries && EntryTurn(db, e, i, s, true).Due?
    ensures var turn := EntryTurn(db, e, i, s, true);
            Confined(db, turn.db, Scope(MembersOf(turn.erasures), TenantsOf(entries), StoresOf(entries)))
  {
    var turn := EntryTurn(db, e, i, s, true);
    var scope := Scope(MembersOf(turn.erasures), TenantsOf(entries), StoresOf(entries));
    match e
    case TenantEntry(tenant, name) =>
      TenantErasureKeeps(db, tenant, name, s.order(tenant), s.now(i), s.randoms(i));
      KeptMore(db, turn.db, Scope(MembersOf(turn.erasures), {tenant}, {}), scope);
    case IdentityEntry(m, email) =>
      ErasureScope(db, m, s.now(i), s.randoms(i));
      assert Erasure(m, s.now(i)) in turn.erasures;
      KeptMore(db, turn.db, Scope({m}, {}, {}), scope);
    case StoreEntry(tenant, store, _) =>
      StoreErasureKeeps(db, tenant, store, s.now(i));
      KeptMore(db, turn.db, Scope({}, {}, {store}), scope);
  }

  lemma NextTouches(db: Database, p: Progress, entries: seq<Entry>, e: Entry, i: nat, s: Setting)
    requires e in entries && !EntryTurn(p.db, e, i, s, true).Stopped?
    requires Confined(db, p.db, Scope(MembersOf(p.erasures), TenantsOf(entries), StoresOf(entries)))
    ensures var next := Next(p, EntryTurn(p.db, e, i, s, true));
            Confined(db, next.db, Scope(MembersOf(next.erasures), TenantsOf(entries), StoresOf(entries)))
  {
    var turn := EntryTurn(p.db, e, i, s, true);
    if turn.Due? {
      TurnTouches(p.db, entries, e, i, s);
      JoinedErasures(p.erasures, turn.erasures, TenantsOf(entries), StoresOf(entries));
      KeptTrans(db, p.db, turn.db, Scope(MembersOf(p.erasures), TenantsOf(entries), StoresOf(entries)),
                Scope(MembersOf(turn.erasures), TenantsOf(entries), StoresOf(entries)),
                Scope(MembersOf(p.erasures + turn.erasures), TenantsOf(entries), StoresOf(entries)));
    }
  }

  lemma JoinedErasures(a: set<Erasure>, b: set<Erasure>, tenants: set<TenantId>, stores: set<StoreId>)
    ensures Joined(Scope(MembersOf(a), tenants, stores), Scope(MembersOf(b), tenants, stores)) ==
              Scope(MembersOf(a + b), tenants, stores)
  {
    assert MembersOf(a + b) == MembersOf(a) + MembersOf(b);
  }

  /**
   A replay, finished or stopped after `n` entries, touches nothing but what its entries name and the members it
   erases.
  */
  lemma ReplayTouches(db: Database, entries: seq<Entry>, n: nat, s: Setting)
    requires n <= |entries| && Replay(db, entries, n, HandlerOf(s, true)).Some?
    ensures var p := Replay(db, entries, n, HandlerOf(s, true)).value;
            Confined(db, p.db, Scope(MembersOf(p.erasures), TenantsOf(entries), StoresOf(entries)))
  {
    var inv := (i: nat, p: Progress) =>
      Confined(db, p.db, Scope(MembersOf(p.erasures), TenantsOf(entries), StoresOf(entries)));
    KeptSame(db, Scope(MembersOf({}), TenantsOf(entries), StoresOf(entries)));
    forall i: nat, p | i < n && inv(i, p) && !EntryTurn(p.db, entries[i], i, s, true).Stopped?
      ensures inv(i + 1, Next(p, EntryTurn(p.db, entries[i], i, s, true)))
    {
      NextTouches(db, p, entries, entries[i], i, s);
    }
    ReplayInduction(db, entries, n, HandlerOf(s, true), inv);
  }

  lemma {:induction false} SkippedReplay(db: Database, entries: seq<Entry>, n: nat, handler: Handler)
    requires n <= |entries| && forall j | 0 <= j < |entries| :: handler(db, entries[j], j).Skipped?
    ensures Replay(db, entries, n, handler) == Some(Progress(db, 0, {}))
    decreases n
  {
    if n > 0 {
      SkippedReplay(db, entries, n - 1, handler);
    }
  }

  lemma {:induction false} NothingPending(db: Database, entries: seq<Entry>, n: nat, handler: Handler)
    requires n <= |entries| && Replay(db, entries, n, handler).Some?
             && Replay(db, entries, n, handler).value.pending == 0
    ensures Replay(db, entries, n, handler).value.db == db
    ensures forall j | 0 <= j < n :: handler(db, entries[j], j).Skipped?
    decreases n
  {
    if n > 0 {
      NothingPending(db, entries, n - 1, handler);
    }
  }

  lemma NothingFoundIff(db: Database, entries: seq<Entry>, s: Setting, execute: bool)
    ensures Replay(db, entries, |entries|, HandlerOf(s, execute)) == Some(Progress(db, 0, {})) <==>
              forall e | e in entries :: Settled(db, e)
  {
    forall j | 0 <= j < |entries|
      ensures Settled(db, entries[j]) <==> HandlerOf(s, execute)(db, entries[j], j).Skipped?
    {
      SettledIsSkipped(db, entries[j], j, s, execute);
    }
    if Replay(db, entries, |entries|, HandlerOf(s, execute)) == Some(Progress(db, 0, {})) {
      NothingPending(db, entries, |entries|, HandlerOf(s, execute));
    }
    if forall e | e in entries :: Settled(db, e) {
      SkippedReplay(db, entries, |entries|, HandlerOf(s, execute));
    }
  }

  /** After a replay with execution, which entries are settled. */
  lemma ReplaySettlesIff(db: Database, entries: seq<Entry>, s: Setting, e: Entry)
    requires Sound(db, s) && Replay(db, entries, |entries|, HandlerOf(s, true)).Some? && e in entries
    ensures var p := Replay(db, entries, |entries|, HandlerOf(s, true)).value;
            Settled(p.db, e) <==> Stands(p.db, p.erasures, e)
  {
    assert entries[..|entries|] == entries;
    ReplayKeeps(db, entries, |entries|, s);
    ReplayHolds(db, entries, |entries|, s, e);
    var p := Replay(db, entries, |entries|, HandlerOf(s, true)).value;
    SettledIffStands(p.db, p.erasures, e);
  }

  /**
   If a replay with execution finishes, a second one, at whatever time, finds nothing pending exactly when every entry
   stands: the last erasure of what it names carries its fingerprint, and no member concerned was outlived in the replay
   by a member tied to it.
  */
  lemma SecondReplayIff(db: Database, entries: seq<Entry>, s: Setting, execute: bool, later: Setting)
    requires Sound(db, s) && Replay(db, entries, |entries|, HandlerOf(s, true)).Some?
    ensures var p := Replay(db, entries, |entries|, HandlerOf(s, true)).value;
            Replay(p.db, entries, |entries|, HandlerOf(later, execute)) == Some(Progress(p.db, 0, {})) <==>
              forall e | e in entries :: Stands(p.db, p.erasures, e)
  {
    var p := Replay(db, entries, |entries|, HandlerOf(s, true)).value;
    NothingFoundIff(p.db, entries, later, execute);
    forall e | e in entries
      ensures Settled(p.db, e) <==> Stands(p.db, p.erasures, e)
    {
      ReplaySettlesIff(db, entries, s, e);
    }
  }

  /** If the entry was settled at the start it stands when its turn comes. */
  predicate StandsAtTurn(db: Database, entries: seq<Entry>, i: nat, s: Setting)
    requires i < |entries|
  {
    var p := Replay(db, entries, i, HandlerOf(s, true));
    p.Some? && Settled(db, entries[i]) ==> Stands(p.value.db, p.value.erasures, entries[i])
  }

  /**
   A replay with execution erases at most what one without counts, when every entry that was settled beforehand still
   stands when its turn comes.
  */
  lemma ErasesWhatWasCounted(db: Database, entries: seq<Entry>, n: nat, s: Setting)
    requires Sound(db, s) && n <= |entries| && Replay(db, entries, n, HandlerOf(s, true)).Some?
    requires forall i | 0 <= i < n :: StandsAtTurn(db, entries, i, s)
    ensures Replay(db, entries, n, HandlerOf(s, true)).value.pending <= Unsettled(db, entries, n)
  {
    SettledAreSkipped(db, entries, n, s);
    CountedReplay(db, entries, n, HandlerOf(s, true));
  }

  /** The entry is skipped at its turn if it was settled at the start. */
  predicate SkippedAtTurn(db: Database, entries: seq<Entry>, i: nat, handler: Handler)
    requires i < |entries|
  {
    var p := Replay(db, entries, i, handler);
    p.Some? && Settled(db, entries[i]) ==> handler(p.value.db, entries[i], i).Skipped?
  }

  lemma SettledAreSkipped(db: Database, entries: seq<Entry>, n: nat, s: Setting)
    requires Sound(db, s) && n <= |entries| && forall i | 0 <= i < n :: StandsAtTurn(db, entries, i, s)
    ensures forall i | 0 <= i < n :: SkippedAtTurn(db, entries, i, HandlerOf(s, true))
  {
    forall i | 0 <= i < n
      ensures SkippedAtTurn(db, entries, i, HandlerOf(s, true))
    {
      SettledTurn(db, entries, i, s);
    }
  }

  lemma SettledTurn(db: Database, entries: seq<Entry>, i: nat, s: Setting)
    requires Sound(db, s) && i < |entries| && StandsAtTurn(db, entries, i, s)
    ensures SkippedAtTurn(db, entries, i, HandlerOf(s, true))
  {
    var p := Replay(db, entries, i, HandlerOf(s, true));
    if p.Some? && Settled(db, entries[i]) {
      ReplayKeeps(db, entries, i, s);
      ReplayHolds(db, entries, i, s, entries[i]);
      SettledIffStands(p.value.db, p.value.erasures, entries[i]);
      SettledIsSkipped(p.value.db, entries[i], i, s, true);
    }
  }

  lemma {:induction false} CountedReplay(db: Database, entries: seq<Entry>, n: nat, handler: Handler)
    requires n <= |entries| && Replay(db, entries, n, handler).Some?
    requires forall i | 0 <= i < n :: SkippedAtTurn(db, entries, i, handler)
    ensures Replay(db, entries, n, handler).value.pending <= Unsettled(db, entries, n)
    decreases n
  {
    if n > 0 {
      CountedReplay(db, entries, n - 1, handler);
      assert SkippedAtTurn(db, entries, n - 1, handler);
    }
  }

  // A ledger with one fingerprint per member and tenant, and a database without ties

  /** Entries about the same member or tenant carry the same fingerprint. */
  predicate Coherent(entries: seq<Entry>) {
    && (forall e, f | e in entries && f in entries && e.IdentityEntry? && f.IdentityEntry? && e.member == f.member ::
          e == f)
    && (forall e, f | e in entries && f in entries && e.TenantEntry? && f.TenantEntry? && e.tenant == f.tenant ::
          e == f)
  }

  lemma TurnKeepsNamed(db: Database, e: Entry, i: nat, s: Setting, m: Member, email: Digest<Email>)
    requires NoTies(db) && EntryTurn(db, e, i, s, true).Due? && IdentityComplete(db, m, None) && Named(db, m, email)
    requires !(e.IdentityEntry? && e.member == m)
    ensures Named(EntryTurn(db, e, i, s, true).db, m, email)
  {
    TurnFrame(db, e, i, s);
    SharedSame(db, EntryTurn(db, e, i, s, true).db, m);
    match e
    case TenantEntry(tenant, _) =>
      LoopPassesOver(db, tenant, s.order(tenant), |s.order(tenant)|, s.now(i), s.randoms(i), m);
    case IdentityEntry(x, _) => IdentityFrame(db, x, s.now(i), s.randoms(i));
    case StoreEntry(tenant, store, _) => StoreFrame(db, tenant, store, s.now(i));
  }

  lemma TurnKeepsSettled(db: Database, entries: seq<Entry>, e: Entry, f: Entry, i: nat, s: Setting)
    requires Sound(db, s) && NoTies(db) && Coherent(entries) && e in entries && f in entries
    requires EntryTurn(db, e, i, s, true).Due? && Settled(db, f)
    ensures Settled(EntryTurn(db, e, i, s, true).db, f)
  {
    SettledIsSkipped(db, e, i, s, true);
    TurnFrame(db, e, i, s);
    NothingOutlived(db, e, i, s);
    if f.IdentityEntry? && f.member in db.members {
      EmailSplit(db, f.member, f.email);
      TurnKeepsNamed(db, e, i, s, f.member, f.email);
    }
    TurnKeepsSettledIff(db, e, i, s, f);
  }

  lemma SettlesNext(p: Progress, entries: seq<Entry>, e: Entry, i: nat, s: Setting, f: Entry)
    requires Sound(p.db, s) && NoTies(p.db) && Coherent(entries) && e in entries && f in entries
    requires !EntryTurn(p.db, e, i, s, true).Stopped? && (f == e || Settled(p.db, f))
    ensures Settled(Next(p, EntryTurn(p.db, e, i, s, true)).db, f)
  {
    if !EntryTurn(p.db, e, i, s, true).Due? {
      SettledIsSkipped(p.db, e, i, s, true);
    } else if f == e {
      OwnTurnSettles(p.db, e, i, s);
    } else {
      TurnKeepsSettled(p.db, entries, e, f, i, s);
    }
  }

  lemma SettlesTurn(p: Progress, entries: seq<Entry>, i: nat, s: Setting, f: Entry)
    requires i < |entries| && f in entries[..i + 1] && Sound(p.db, s) && NoTies(p.db) && Coherent(entries)
    requires !EntryTurn(p.db, entries[i], i, s, true).Stopped? && (f in entries[..i] ==> Settled(p.db, f))
    ensures Settled(Next(p, EntryTurn(p.db, entries[i], i, s, true)).db, f)
  {
    assert entries[..i + 1] == entries[..i] + [entries[i]];
    SettlesNext(p, entries, entries[i], i, s, f);
  }

  lemma ReplaySettles(db: Database, entries: seq<Entry>, s: Setting, f: Entry)
    requires Sound(db, s) && NoTies(db) && Coherent(entries) && f in entries
    requires Replay(db, entries, |entries|, HandlerOf(s, true)).Some?
    ensures Settled(Replay(db, entries, |entries|, HandlerOf(s, true)).value.db, f)
  {
    var inv := (i: nat, p: Progress) => i <= |entries| && f in entries[..i] ==> Settled(p.db, f);
    forall i: nat, p | i < |entries| && Replay(db, entries, i, HandlerOf(s, true)) == Some(p) && inv(i, p)
                       && !EntryTurn(p.db, entries[i], i, s, true).Stopped?
      ensures inv(i + 1, Next(p, EntryTurn(p.db, entries[i], i, s, true)))
    {
      if f in entries[..i + 1] {
        ReplayKeeps(db, entries, i, s);
        NoTiesStays(db, p.db);
        SettlesTurn(p, entries, i, s, f);
      }
    }
    ReplayInduction(db, entries, |entries|, HandlerOf(s, true), inv);
    assert entries[..|entries|] == entries;
  }

  lemma NothingOutlived(db: Database, e: Entry, i: nat, s: Setting)
    requires NoTies(db) && EntryTurn(db, e, i, s, true).Due?
    ensures var turn := EntryTurn(db, e, i, s, true);
            Stamped(turn.db, turn.erasures) && forall m :: !Outlived(turn.db, turn.erasures, m)
  {
    var turn := EntryTurn(db, e, i, s, true);
    TurnFrame(db, e, i, s);
    NoTiesStays(db, turn.db);
    TurnStamps(db, {}, e, i, s);
    assert {} + turn.erasures == turn.erasures;
    forall m
      ensures !Outlived(turn.db, turn.erasures, m)
    {
      NotOutlived(turn.db, turn.erasures, m);
    }
  }

  lemma OwnTurnSettles(db: Database, e: Entry, i: nat, s: Setting)
    requires Sound(db, s) && NoTies(db) && EntryTurn(db, e, i, s, true).Due?
    ensures Settled(EntryTurn(db, e, i, s, true).db, e)
  {
    var turn := EntryTurn(db, e, i, s, true);
    NothingOutlived(db, e, i, s);
    match e
    case TenantEntry(tenant, name) =>
      TurnHolds(db, {}, e, i, s);
      assert {} + turn.erasures == turn.erasures;
      TenantCloses(db, tenant, name, s.order(tenant), s.now(i), s.randoms(i));
      SettledIffStands(turn.db, turn.erasures, e);
    case IdentityEntry(m, email) => EraseThenComplete(db, m, s.now(i), Some(email), s.randoms(i));
    case StoreEntry(_, _, _) =>
  }

  /**
   On a ledger that carries one fingerprint per member and tenant, and a database in which no settings reference ties
   two members, the second replay finds nothing.
  */
  lemma SecondReplayFindsNothing(db: Database, entries: seq<Entry>, s: Setting, execute: bool, later: Setting)
    requires Sound(db, s) && NoTies(db) && Coherent(entries) && Replay(db, entries, |entries|, HandlerOf(s, true)).Some?
    ensures var after := Replay(db, entries, |entries|, HandlerOf(s, true)).value.db;
            Replay(after, entries, |entries|, HandlerOf(later, execute)) == Some(Progress(after, 0, {}))
  {
    var after := Replay(db, entries, |entries|, HandlerOf(s, true)).value.db;
    forall e | e in entries
      ensures Settled(after, e)
    {
      ReplaySettles(db, entries, s, e);
    }
    NothingFoundIff(after, entries, later, execute);
  }

  /**
   A ledger of two tied members, both erased again by a first replay: a second one never finds nothing. If the member
   erased first belongs to no other tenant, it ends in an error, since the erased email has another fingerprint.
  */
  lemma TiedMembersReplay(db: Database, entries: seq<Entry>, m: Member, other: Member, text: Text, s: Setting,
                          execute: bool, later: Setting)
    requires Sound(db, s) && |entries| == 2 && m != other && Tied(db, m, other) && s.now(0) < s.now(1)
    requires entries[0] == IdentityEntry(m, Hash(Address(text))) && entries[1].IdentityEntry?
             && entries[1].member == other
    requires var first := Replay(db, entries, 2, HandlerOf(s, true));
             first.Some? && first.value.pending == 2
    ensures var after := Replay(db, entries, 2, HandlerOf(s, true)).value.db;
            var second := Replay(after, entries, 2, HandlerOf(later, execute));
            second != Some(Progress(after, 0, {})) && (!Shared(db, m) ==> second.None?)
  {
    TiedMembersErased(db, entries, m, other, s);
    var p := Replay(db, entries, 2, HandlerOf(s, true)).value;
    assert entries[0] in entries;
    ReplaySettlesIff(db, entries, s, entries[0]);
    NothingFoundIff(p.db, entries, later, execute);
    if !Shared(db, m) {
      assert EntryTurn(p.db, entries[0], 0, later, execute).Stopped?;
      StoppedReplay(p.db, entries, 1, 2, HandlerOf(later, execute));
    }
  }

  lemma TwoIdentities(db: Database, entries: seq<Entry>, s: Setting)
    requires |entries| == 2 && entries[0].IdentityEntry? && entries[1].IdentityEntry?
    requires var p := Replay(db, entries, 2, HandlerOf(s, true));
             p.Some? && p.value.pending == 2
    ensures var m, other := entries[0].member, entries[1].member;
            && m in db.members && m.user in db.users
            && var once := IdentityErasedFrom(db, m, s.now(0), s.randoms(0));
               && other in once.members && other.user in once.users
               && var p := Replay(db, entries, 2, HandlerOf(s, true)).value;
                  && p.db == IdentityErasedFrom(once, other, s.now(1), s.randoms(1))
                  && Erasure(other, s.now(1)) in p.erasures
  {
    assert Replay(db, entries, 0, HandlerOf(s, true)) == Some(Progress(db, 0, {}));
    var p1 := Replay(db, entries, 1, HandlerOf(s, true)).value;
    assert p1.db == IdentityErasedFrom(db, entries[0].member, s.now(0), s.randoms(0));
  }

  lemma TiedMembersErased(db: Database, entries: seq<Entry>, m: Member, other: Member, s: Setting)
    requires |entries| == 2 && m != other && Tied(db, m, other) && s.now(0) < s.now(1)
    requires entries[0].IdentityEntry? && entries[1].IdentityEntry? && entries[0].member == m
             && entries[1].member == other
    requires var p := Replay(db, entries, 2, HandlerOf(s, true));
             p.Some? && p.value.pending == 2
    ensures var p := Replay(db, entries, 2, HandlerOf(s, true)).value;
            && Outlived(p.db, p.erasures, m)
            && (!Shared(db, m) ==> m.user in p.db.users && p.db.users[m.user].email == ErasedEmail(m.user))
  {
    TwoIdentities(db, entries, s);
    var p := Replay(db, entries, 2, HandlerOf(s, true)).value;
    var once := IdentityErasedFrom(db, m, s.now(0), s.randoms(0));
    IdentityFrame(db, m, s.now(0), s.randoms(0));
    IdentityFrame(once, other, s.now(1), s.randoms(1));
    TiesStay(db, once, m, other);
    TiesStay(once, p.db, m, other);
  }

  lemma {:induction false} StoppedReplay(db: Database, entries: seq<Entry>, i: nat, n: nat, handler: Handler)
    requires i <= n <= |entries| && Replay(db, entries, i, handler).None?
    ensures Replay(db, entries, n, handler).None?
    decreases n
  {
    if i < n {
      StoppedReplay(db, entries, i, n - 1, handler);
    }
  }

  /** The operator's service on one database. */
  class PrivacyService {
    var db: Database

    constructor (db: Database)
      ensures this.db == db
    {
      this.db := db;
    }

    /** One transaction; it commits only when the member is there and has the expected email. */
    method EraseMember(m: Member, now: int, email: Option<Digest<Email>>, randoms: Randoms) returns (erased: bool)
      modifies this
      ensures erased == EraseIdentity(old(db), m, now, email, randoms).Some?
      ensures erased <==>
                && m in old(db).members && m.user in old(db).users
                && (email == None || Hash(old(db).users[m.user].email) == email.value)
      ensures db == if erased then EraseIdentity(old(db), m, now, email, randoms).value else old(db)
      ensures erased ==> IdentityComplete(db, m, email) && Confined(old(db), db, Scope({m}, {}, {}))
    {
      erased := m in db.members && m.user in db.users && (email.None? || Hash(db.users[m.user].email) == email.value);
      if !erased {
        return;
      }
      EraseThenComplete(db, m, now, email, randoms);
      ErasureScope(db, m, now, randoms);
      db := IdentityErasedFrom(db, m, now, randoms);
    }

    /** The loop over a tenant's members in the order they are listed: who is complete is passed over. */
    method EraseListed(tenant: TenantId, users: seq<UserId>, now: int, randoms: Randoms)
      modifies this
      ensures db == MembersErasedFrom(old(db), tenant, users, |users|, now, randoms)
    {
      for i := 0 to |users|
        invariant db == MembersErasedFrom(old(db), tenant, users, i, now, randoms)
      {
        var m := Member(tenant, users[i]);
        if !Skips(db, m) {
          db := IdentityErasedFrom(db, m, now, randoms);
        }
      }
    }

    /** One transaction. */
    method EraseWholeTenant(tenant: TenantId, name: Digest<Name>, users: seq<UserId>, now: int, randoms: Randoms)
      returns (erased: bool)
      requires Consistent(db) && Lists(db, tenant, users)
      modifies this
      ensures erased == EraseTenant(old(db), tenant, name, users, now, randoms).Some?
      ensures erased <==>
                && tenant in old(db).tenants && Hash(old(db).tenants[tenant].name) == name
                && forall s | s in old(db).stores && old(db).stores[s].tenant == tenant ::
                     && old(db).stores[s].disconnected && old(db).stores[s].deletedAt != None
                     && old(db).stores[s].url == ErasedUrl(s)
      ensures erased ==> db.tenants == old(db).tenants[tenant := Tenant(ErasedName(tenant), Some(now), true)]
      ensures db == if erased then EraseTenant(old(db), tenant, name, users, now, randoms).value else old(db)
      ensures erased ==> (TenantComplete(db, tenant, name) <==>
                            !LeavesTied(old(db), tenant, LoopErasures(old(db), tenant, users, |users|, now, randoms),
                                        now))
      ensures erased ==>
                Confined(old(db), db,
                     Scope(MembersOf(LoopErasures(old(db), tenant, users, |users|, now, randoms)), {tenant}, {}))
    {
      ghost var start := db;
      if tenant !in db.tenants || Hash(db.tenants[tenant].name) != name {
        return false;
      }
      if s :| s in db.stores && db.stores[s].tenant == tenant && !StoreErased(s, db.stores[s]) {
        return false;
      }
      LoopFrame(db, tenant, users, |users|, now, randoms);
      EraseListed(tenant, users, now, randoms);
      db := TenantClosed(db, tenant, now, name);
      EraseTenantCompleteIff(start, tenant, name, users, now, randoms);
      TenantErasureKeeps(start, tenant, name, users, now, randoms);
      erased := true;
    }

    /** The target of a store operation names the row by id, tenant and address. */
    predicate Resolves(tenant: TenantId, s: StoreId, url: Url)
      reads this
    {
      s in db.stores && db.stores[s].tenant == tenant && db.stores[s].url == url
    }

    method DisconnectStore(tenant: TenantId, s: StoreId, url: Url, now: int) returns (done: bool)
      modifies this
      ensures done == old(Resolves(tenant, s, url))
      ensures db == if done then StoreDisconnectedFrom(old(db), tenant, s, now) else old(db)
    {
      done := s in db.stores && db.stores[s].tenant == tenant && db.stores[s].url == url;
      if done {
        db := StoreDisconnectedFrom(db, tenant, s, now);
      }
    }

    /** Refused unless the store has been disconnected; once done it no longer resolves to its old address. */
    method EraseStore(tenant: TenantId, s: StoreId, url: Url) returns (done: bool)
      modifies this
      ensures done == (old(Resolves(tenant, s, url)) && old(db).stores[s].disconnected
                       && old(db).stores[s].deletedAt.Some?)
      ensures db == if done then StoreWipedFrom(old(db), tenant, s) else old(db)
      ensures done ==> StoreErased(s, db.stores[s]) && (url.Url? ==> !Resolves(tenant, s, url))
      ensures done ==> forall m, email | IdentityComplete(old(db), m, email) :: IdentityComplete(db, m, email)
    {
      done := s in db.stores && db.stores[s].tenant == tenant && db.stores[s].url == url
              && db.stores[s].disconnected && db.stores[s].deletedAt.Some?;
      if done {
        forall m, email | IdentityComplete(db, m, email)
          ensures IdentityComplete(StoreWipedFrom(db, tenant, s), m, email)
        {
          WipeKeepsComplete(db, tenant, s, m, email);
        }
        db := StoreWipedFrom(db, tenant, s);
      }
    }

    /** The loop of `replayLedger`; `None` stands for the error that ends it. What was erased before stays erased. */
    method ReplayEntries(entries: seq<Entry>, handler: Handler) returns (pending: Option<nat>, done: nat)
      modifies this
      ensures done <= |entries| && Replay(old(db), entries, done, handler).Some?
      ensures db == Replay(old(db), entries, done, handler).value.db
      ensures pending.Some? ==>
                done == |entries| && pending.value == Replay(old(db), entries, done, handler).value.pending
      ensures pending.None? ==> done < |entries| && Replay(old(db), entries, |entries|, handler).None?
    {
      var count: nat := 0;
      ghost var start := db;
      done := 0;
      while done < |entries|
        invariant done <= |entries| && Replay(start, entries, done, handler).Some?
        invariant db == Replay(start, entries, done, handler).value.db
        invariant count == Replay(start, entries, done, handler).value.pending
      {
        var turn := handler(db, entries[done], done);
        if turn.Stopped? {
          StoppedReplay(start, entries, done + 1, |entries|, handler);
          return None, done;
        }
        if turn.Due? {
          count := count + 1;
          db := turn.db;
        }
        done := done + 1;
      }
      pending := Some(count);
    }

    method ReplayLedger(entries: seq<Entry>, execute: bool, s: Setting) returns (pending: Option<nat>)
      requires Sound(db, s)
      modifies this
      ensures pending.Some? <==> Replay(old(db), entries, |entries|, HandlerOf(s, execute)).Some?
      ensures pending.Some? ==>
                pending.value == Replay(old(db), entries, |entries|, HandlerOf(s, execute)).value.pending
      ensures !execute ==> db == old(db) && (pending.Some? <==> AllMatching(old(db), entries, |entries|))
      ensures !execute && pending.Some? ==> pending.value == Unsettled(old(db), entries, |entries|)
      ensures execute && pending.Some? ==>
                var p := Replay(old(db), entries, |entries|, HandlerOf(s, true)).value;
                db == p.db && forall e | e in entries :: Settled(db, e) <==> Stands(db, p.erasures, e)
    {
      ghost var start := db;
      var done: nat;
      pending, done := ReplayEntries(entries, HandlerOf(s, execute));
      if !execute {
        DryReplay(start, entries, done, s);
        DryReplay(start, entries, |entries|, s);
      } else if pending.Some? {
        forall e | e in entries
          ensures Settled(db, e) <==>
                    Stands(db, Replay(start, entries, |entries|, HandlerOf(s, true)).value.erasures, e)
        {
          ReplaySettlesIff(start, entries, s, e);
        }
      }
    }
  }
}

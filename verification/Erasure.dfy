/**
 Erasing a member, a tenant or a store, and the checks that later decide whether an erasure is complete.

 A member is identified by tenant and user, and a Telegram account by its user: both pairs are unique keys of the
 schema. One erasure is one serializable transaction; `now` is its clock reading.
*/
module Erasure {
  import opened Common
  import opened Wrappers

  type TenantId = nat
  type UserId = nat
  type StoreId = nat
  type RowId = nat
  type Text = string

  datatype Email = Address(text: Text) | ErasedEmail(user: UserId)
  datatype Name = Named(text: Text) | ErasedName(tenant: TenantId)
  datatype Url = Url(text: Text) | ErasedUrl(store: StoreId)

  datatype User = User(email: Email, displayName: Option<Text>, passwordHash: Option<Text>)

  datatype Member = Member(tenant: TenantId, user: UserId)

  datatype Account = Account(telegramUser: int, deletedAt: Option<int>, lastRedeem: Option<int>,
                             lastUnlink: Option<int>)

  datatype Chat = Chat(account: UserId, telegramChat: int, activeTenant: Option<TenantId>,
                       activeStore: Option<StoreId>, revokedAt: Option<int>)

  datatype Kind = Settings | Callback | Inventory | Search

  /** A row of one of the four reference tables. */
  datatype Ref = Ref(
    kind: Kind,
    tenant: TenantId,
    store: StoreId,
    account: UserId,
    telegramChat: int,
    expiresAt: int,
    target: Option<Member>,
    noteBody: Option<Text>,
    noteFingerprint: Option<Text>,
    query: Option<Text>
  )

  datatype Fingerprint = Zeros | Taken(digest: Digest<Text>)

  datatype NoteAction = NoteAction(tenant: TenantId, store: StoreId, account: UserId, fingerprint: Fingerprint,
                                   result: Option<Text>)

  datatype StatusWrite = StatusWrite(tenant: TenantId, store: StoreId, account: UserId, result: Option<Text>)

  /** A row of one of the two delivery tables. */
  datatype Delivery = Delivery(tenant: TenantId, account: UserId, messageId: Option<int>, state: DeliveryState)

  datatype Tenant = Tenant(name: Name, deletedAt: Option<int>, suspended: bool)

  datatype Store = Store(tenant: TenantId, url: Url, disconnected: bool, deletedAt: Option<int>)

  datatype Audit =
    | IdentityErased(member: Member, erasedAt: int, email: Digest<Email>, shared: bool)
    | TenantErased(tenant: TenantId, erasedAt: int, name: Digest<Name>)

  datatype Database = Database(
    users: map<UserId, User>,
    members: map<Member, Option<int>>,
    accounts: map<UserId, Account>,
    chats: map<RowId, Chat>,
    linkTokens: map<RowId, UserId>,
    recipients: map<RowId, Member>,
    refs: map<RowId, Ref>,
    noteActions: map<RowId, NoteAction>,
    statusWrites: map<RowId, StatusWrite>,
    deliveries: map<RowId, Delivery>,
    tenants: map<TenantId, Tenant>,
    stores: map<StoreId, Store>,
    audits: set<Audit>
  )

  /** Foreign keys. */
  ghost predicate Consistent(db: Database) {
    && (forall m | m in db.members :: m.user in db.users && m.tenant in db.tenants)
    && (forall s | s in db.stores :: db.stores[s].tenant in db.tenants)
  }

  // Random replacements

  const ID_SPACE: int := 0x4000_0000_0000_0000

  /** `anonymousTelegramId` of eight random bytes: the low 62 bits, negated past zero. */
  function AnonymousTelegramId(random: nat): (id: int)
    ensures -ID_SPACE <= id < 0
  {
    -(random % ID_SPACE) - 1
  }

  /** The random values of one erasure. */
  datatype Randoms = Randoms(refs: Kind -> nat, chats: RowId -> nat, account: nat)

  // Erasing a member

  predicate Shared(db: Database, m: Member) {
    exists other :: other in db.members && other.user == m.user && other.tenant != m.tenant
  }

  function ErasedRef(r: Ref, m: Member, hasAccount: bool, now: int, randoms: Randoms): Ref {
    var s := if r.kind.Settings? && r.tenant == m.tenant && r.target == Some(m) then r.(expiresAt := now) else r;
    if !(hasAccount && r.tenant == m.tenant && r.account == m.user) then s
    else
      s.(expiresAt := now,
         telegramChat := AnonymousTelegramId(randoms.refs(r.kind)),
         noteBody := if r.kind.Callback? then None else r.noteBody,
         noteFingerprint := if r.kind.Callback? then None else r.noteFingerprint,
         query := if r.kind.Search? then None else r.query)
  }

  predicate Scoped(tenant: TenantId, account: UserId, m: Member, hasAccount: bool) {
    hasAccount && tenant == m.tenant && account == m.user
  }

  function ErasedNoteAction(a: NoteAction, m: Member, hasAccount: bool): NoteAction {
    if Scoped(a.tenant, a.account, m, hasAccount) then a.(fingerprint := Zeros, result := None) else a
  }

  function ErasedStatusWrite(w: StatusWrite, m: Member, hasAccount: bool): StatusWrite {
    if Scoped(w.tenant, w.account, m, hasAccount) then w.(result := None) else w
  }

  function ErasedDelivery(d: Delivery, m: Member, hasAccount: bool): Delivery {
    if Scoped(d.tenant, d.account, m, hasAccount) then
      d.(messageId := None, state := if Final(d.state) then d.state else TerminalFailure)
    else d
  }

  function ErasedChat(k: RowId, c: Chat, m: Member, hasAccount: bool, shared: bool, now: int, randoms: Randoms): Chat {
    if !hasAccount || c.account != m.user then c
    else if !shared then Chat(c.account, AnonymousTelegramId(randoms.chats(k)), None, None, Some(now))
    else if c.activeTenant == Some(m.tenant) then c.(activeTenant := None, activeStore := None, revokedAt := Some(now))
    else c
  }

  /** `eraseIdentityInTransaction`: `None` when the member is missing or its email is not the expected one. */
  function EraseIdentity(db: Database, m: Member, now: int, email: Option<Digest<Email>>,
                         randoms: Randoms): Option<Database>
  {
    if m !in db.members || m.user !in db.users || (email.Some? && Hash(db.users[m.user].email) != email.value) then None
    else Some(IdentityErasedFrom(db, m, now, randoms))
  }

  function IdentityErasedFrom(db: Database, m: Member, now: int, randoms: Randoms): Database
    requires m in db.members && m.user in db.users
  {
    var shared, hasAccount := Shared(db, m), m.user in db.accounts;
    Database(
      if shared then db.users else db.users[m.user := User(ErasedEmail(m.user), None, None)],
      db.members[m := Some(now)],
      if shared || !hasAccount then db.accounts
      else db.accounts[m.user := Account(AnonymousTelegramId(randoms.account), Some(now), None, None)],
      map k | k in db.chats :: ErasedChat(k, db.chats[k], m, hasAccount, shared, now, randoms),
      map k | k in db.linkTokens && (shared || db.linkTokens[k] != m.user) :: db.linkTokens[k],
      map k | k in db.recipients && db.recipients[k] != m :: db.recipients[k],
      map k | k in db.refs :: ErasedRef(db.refs[k], m, hasAccount, now, randoms),
      map k | k in db.noteActions :: ErasedNoteAction(db.noteActions[k], m, hasAccount),
      map k | k in db.statusWrites :: ErasedStatusWrite(db.statusWrites[k], m, hasAccount),
      map k | k in db.deliveries :: ErasedDelivery(db.deliveries[k], m, hasAccount),
      db.tenants,
      db.stores,
      db.audits + {IdentityErased(m, now, Hash(db.users[m.user].email), shared)})
  }

  // Checking a member

  predicate RefClean(r: Ref, m: Member, deletedAt: int) {
    r.tenant == m.tenant && r.account == m.user ==>
      && r.telegramChat < 0 && r.expiresAt <= deletedAt
      && (r.kind.Callback? ==> r.noteBody.None? && r.noteFingerprint.None?)
      && (r.kind.Search? ==> r.query.None?)
  }

  predicate TargetExpired(r: Ref, m: Member, deletedAt: int) {
    r.kind.Settings? && r.tenant == m.tenant && r.target == Some(m) ==> r.expiresAt <= deletedAt
  }

  predicate NoteActionClean(a: NoteAction, m: Member) {
    a.tenant == m.tenant && a.account == m.user ==> a.fingerprint.Zeros? && a.result.None?
  }

  predicate StatusWriteClean(w: StatusWrite, m: Member) {
    w.tenant == m.tenant && w.account == m.user ==> w.result.None?
  }

  predicate DeliveryClean(d: Delivery, m: Member) {
    d.tenant == m.tenant && d.account == m.user ==> d.messageId.None? && Final(d.state)
  }

  predicate AccountErased(a: Account) {
    a.deletedAt.Some? && a.telegramUser < 0 && a.lastRedeem.None? && a.lastUnlink.None?
  }

  predicate ChatErased(c: Chat) {
    c.telegramChat < 0 && c.activeTenant.None? && c.activeStore.None? && c.revokedAt.Some?
  }

  /** The part of the check about the person, who keeps the identity while other tenants share it. */
  predicate PersonClean(db: Database, m: Member, email: Option<Digest<Email>>)
    requires m.user in db.users
  {
    var user := db.users[m.user];
    if Shared(db, m) then
      && (email.Some? ==> Hash(user.email) == email.value)
      && (m.user in db.accounts ==>
            forall k | k in db.chats && db.chats[k].account == m.user :: db.chats[k].activeTenant != Some(m.tenant))
    else
      && user == User(ErasedEmail(m.user), None, None)
      && (m.user in db.accounts ==>
            && AccountErased(db.accounts[m.user])
            && forall k | k in db.chats && db.chats[k].account == m.user :: ChatErased(db.chats[k]))
      && (forall k | k in db.linkTokens :: db.linkTokens[k] != m.user)
  }

  /** The part of the check about the tenant's rows. */
  predicate RowsClean(db: Database, m: Member, deletedAt: int) {
    && (forall k | k in db.recipients :: db.recipients[k] != m)
    && (forall k | k in db.refs :: TargetExpired(db.refs[k], m, deletedAt))
    && (m.user in db.accounts ==>
          && (forall k | k in db.refs :: RefClean(db.refs[k], m, deletedAt))
          && (forall k | k in db.noteActions :: NoteActionClean(db.noteActions[k], m))
          && (forall k | k in db.statusWrites :: StatusWriteClean(db.statusWrites[k], m))
          && (forall k | k in db.deliveries :: DeliveryClean(db.deliveries[k], m)))
  }

  /** A matching audit row proves that the deletion was an erasure. */
  predicate Audited(db: Database, m: Member, deletedAt: int, email: Option<Digest<Email>>) {
    exists a :: a in db.audits && a.IdentityErased? && a.member == m && a.erasedAt == deletedAt
      && a.shared == Shared(db, m)
                && (email.Some? ==> a.email == email.value)
  }

  /** `identityErasureComplete`. */
  predicate IdentityComplete(db: Database, m: Member, email: Option<Digest<Email>>) {
    && m in db.members && m.user in db.users && db.members[m].Some?
    && PersonClean(db, m, email)
    && Audited(db, m, db.members[m].value, email)
    && RowsClean(db, m, db.members[m].value)
  }

  // Erasing makes the check succeed

  lemma ErasedPerson(db: Database, m: Member, now: int, randoms: Randoms)
    requires m in db.members && m.user in db.users
    ensures var after := IdentityErasedFrom(db, m, now, randoms);
            && Shared(after, m) == Shared(db, m)
            && m.user in after.users
            && PersonClean(after, m, if Shared(db, m) then Some(Hash(db.users[m.user].email)) else None)
            && (!Shared(db, m) ==> forall email :: PersonClean(after, m, email))
  {
  }

  lemma ErasedRows(db: Database, m: Member, now: int, randoms: Randoms)
    requires m in db.members && m.user in db.users
    ensures RowsClean(IdentityErasedFrom(db, m, now, randoms), m, now)
  {
  }

  /** After an erasure commits, the check succeeds for the same target. */
  lemma EraseThenComplete(db: Database, m: Member, now: int, email: Option<Digest<Email>>, randoms: Randoms)
    requires EraseIdentity(db, m, now, email, randoms).Some?
    ensures IdentityComplete(EraseIdentity(db, m, now, email, randoms).value, m, email)
    ensures IdentityComplete(EraseIdentity(db, m, now, email, randoms).value, m, None)
    ensures IdentityComplete(EraseIdentity(db, m, now, email, randoms).value, m, Some(Hash(db.users[m.user].email)))
  {
    var after := EraseIdentity(db, m, now, email, randoms).value;
    ErasedPerson(db, m, now, randoms);
    ErasedRows(db, m, now, randoms);
    assert IdentityErased(m, now, Hash(db.users[m.user].email), Shared(db, m)) in after.audits;
  }

  // Erasing somebody else

  /** A settings reference ties the two members together. */
  predicate Tied(db: Database, m: Member, other: Member) {
    m.tenant == other.tenant && exists k :: k in db.refs && TieSeen(db, db.refs[k], m, other)
  }

  /** Whether erasing `other` moves an expiry past the deletion of `m`. */
  predicate Disturbs(db: Database, m: Member, deletedAt: int, other: Member, now: int) {
    now > deletedAt && Tied(db, m, other)
  }

  /** The reference is touched by the erasure of `other` and looked at by the check of `m`. */
  predicate TieSeen(db: Database, r: Ref, m: Member, other: Member) {
    && r.kind.Settings? && r.tenant == m.tenant
    && ((r.target == Some(other) && r.account == m.user && m.user in db.accounts)
        || (r.account == other.user && other.user in db.accounts && r.target == Some(m)))
  }

  lemma OtherPerson(db: Database, m: Member, other: Member, now: int, randoms: Randoms, email: Option<Digest<Email>>)
    requires m in db.members && m.user in db.users && other in db.members && other.user in db.users && m != other
    requires PersonClean(db, m, email)
    ensures var after := IdentityErasedFrom(db, other, now, randoms);
            && m.user in after.users && Shared(after, m) == Shared(db, m) && PersonClean(after, m, email)
  {
    var after := IdentityErasedFrom(db, other, now, randoms);
    assert after.members.Keys == db.members.Keys;
    if m.user == other.user {
      assert Shared(db, other) && Shared(db, m);
    }
  }

  lemma OtherRef(r: Ref, m: Member, deletedAt: int, other: Member, hasAccount: bool, now: int, randoms: Randoms)
    requires m != other && TargetExpired(r, m, deletedAt)
    ensures TargetExpired(ErasedRef(r, other, hasAccount, now, randoms), m, deletedAt) <==>
              !(r.kind.Settings? && r.target == Some(m) && r.tenant == m.tenant == other.tenant
                && r.account == other.user && hasAccount && now > deletedAt)
  {
  }

  lemma OtherOwnRef(r: Ref, m: Member, deletedAt: int, other: Member, hasAccount: bool, now: int, randoms: Randoms)
    requires m != other && RefClean(r, m, deletedAt)
    ensures RefClean(ErasedRef(r, other, hasAccount, now, randoms), m, deletedAt) <==>
              !(r.kind.Settings? && r.target == Some(other) && r.tenant == m.tenant == other.tenant
                && r.account == m.user && now > deletedAt)
  {
  }

  predicate RefsClean(db: Database, m: Member, deletedAt: int) {
    forall k | k in db.refs :: TargetExpired(db.refs[k], m, deletedAt)
      && (m.user in db.accounts ==> RefClean(db.refs[k], m, deletedAt))
  }

  lemma OtherRefs(db: Database, m: Member, deletedAt: int, other: Member, now: int, randoms: Randoms)
    requires other in db.members && other.user in db.users && m != other && RefsClean(db, m, deletedAt)
    ensures RefsClean(IdentityErasedFrom(db, other, now, randoms), m, deletedAt) <==>
              !Disturbs(db, m, deletedAt, other, now)
  {
    var after, hasAccount := IdentityErasedFrom(db, other, now, randoms), other.user in db.accounts;
    assert after.refs.Keys == db.refs.Keys && after.accounts.Keys == db.accounts.Keys;
    forall k | k in db.refs
      ensures TargetExpired(after.refs[k], m, deletedAt)
              && (m.user in db.accounts ==> RefClean(after.refs[k], m, deletedAt))
              <==> !(m.tenant == other.tenant && now > deletedAt && TieSeen(db, db.refs[k], m, other))
    {
      OneRef(db, k, m, deletedAt, other, now, randoms);
    }
  }

  lemma OneRef(db: Database, k: RowId, m: Member, deletedAt: int, other: Member, now: int, randoms: Randoms)
    requires k in db.refs && m != other
    requires TargetExpired(db.refs[k], m, deletedAt) && (m.user in db.accounts ==> RefClean(db.refs[k], m, deletedAt))
    ensures var r := ErasedRef(db.refs[k], other, other.user in db.accounts, now, randoms);
            TargetExpired(r, m, deletedAt) && (m.user in db.accounts ==> RefClean(r, m, deletedAt))
            <==> !(m.tenant == other.tenant && now > deletedAt && TieSeen(db, db.refs[k], m, other))
  {
    OtherRef(db.refs[k], m, deletedAt, other, other.user in db.accounts, now, randoms);
    if m.user in db.accounts {
      OtherOwnRef(db.refs[k], m, deletedAt, other, other.user in db.accounts, now, randoms);
    }
  }

  /** The rows other than references. */
  predicate OtherTablesClean(db: Database, m: Member) {
    && (forall k | k in db.recipients :: db.recipients[k] != m)
    && (m.user in db.accounts ==>
          && (forall k | k in db.noteActions :: NoteActionClean(db.noteActions[k], m))
          && (forall k | k in db.statusWrites :: StatusWriteClean(db.statusWrites[k], m))
          && (forall k | k in db.deliveries :: DeliveryClean(db.deliveries[k], m)))
  }

  lemma OtherTables(db: Database, m: Member, other: Member, now: int, randoms: Randoms)
    requires other in db.members && other.user in db.users && OtherTablesClean(db, m)
    ensures OtherTablesClean(IdentityErasedFrom(db, other, now, randoms), m)
  {
  }

  lemma OtherRows(db: Database, m: Member, deletedAt: int, other: Member, now: int, randoms: Randoms)
    requires other in db.members && other.user in db.users && m != other && RowsClean(db, m, deletedAt)
    ensures RowsClean(IdentityErasedFrom(db, other, now, randoms), m, deletedAt) <==>
              !Disturbs(db, m, deletedAt, other, now)
  {
    assert RefsClean(db, m, deletedAt) && OtherTablesClean(db, m);
    OtherRefs(db, m, deletedAt, other, now, randoms);
    OtherTables(db, m, other, now, randoms);
    RowsCleanParts(IdentityErasedFrom(db, other, now, randoms), m, deletedAt);
  }

  lemma RowsCleanParts(db: Database, m: Member, deletedAt: int)
    ensures RowsClean(db, m, deletedAt) <==> RefsClean(db, m, deletedAt) && OtherTablesClean(db, m)
  {
  }

  /**
  Erasing another member undoes a complete erasure exactly when it happens later and a settings reference ties the two
  members together. (Then the reference's expiry is set to the later time, which the check compares with the earlier.)
  */
  lemma ErasingAnotherIff(db: Database, m: Member, email: Option<Digest<Email>>, other: Member, now: int,
                          otherEmail: Option<Digest<Email>>, randoms: Randoms)
    requires IdentityComplete(db, m, email) && m != other
    requires EraseIdentity(db, other, now, otherEmail, randoms).Some?
    ensures IdentityComplete(EraseIdentity(db, other, now, otherEmail, randoms).value, m, email)
            <==> !Disturbs(db, m, db.members[m].value, other, now)
  {
    var after := EraseIdentity(db, other, now, otherEmail, randoms).value;
    OtherPerson(db, m, other, now, randoms, email);
    OtherRows(db, m, db.members[m].value, other, now, randoms);
    assert db.audits <= after.audits;
  }

  lemma TieStays(db: Database, k: RowId, m: Member, other: Member, erased: Member, now: int, randoms: Randoms)
    requires erased in db.members && erased.user in db.users && k in db.refs && TieSeen(db, db.refs[k], m, other)
    ensures var after := IdentityErasedFrom(db, erased, now, randoms);
            k in after.refs && TieSeen(after, after.refs[k], m, other)
  {
  }

  /** The way this happens: two members tied by a settings reference, erased one after the other. */
  lemma LaterErasureUndoes(db: Database, k: RowId, m: Member, other: Member, first: int, second: int, a: Randoms,
                           b: Randoms)
    requires m in db.members && m.user in db.users && other in db.members && other.user in db.users
    requires m != other && m.tenant == other.tenant && first < second
    requires k in db.refs && TieSeen(db, db.refs[k], m, other)
    ensures var once := IdentityErasedFrom(db, m, first, a);
            && other in once.members && other.user in once.users
            && IdentityComplete(once, m, None) && !IdentityComplete(IdentityErasedFrom(once, other, second, b), m, None)
  {
    var once := IdentityErasedFrom(db, m, first, a);
    assert EraseIdentity(db, m, first, None, a) == Some(once);
    EraseThenComplete(db, m, first, None, a);
    TieStays(db, k, m, other, m, first, a);
    assert EraseIdentity(once, other, second, None, b) == Some(IdentityErasedFrom(once, other, second, b));
    ErasingAnotherIff(once, m, None, other, second, None, b);
  }

  // Erasing a store

  predicate StoreErased(s: StoreId, row: Store) {
    row.disconnected && row.deletedAt.Some? && row.url == ErasedUrl(s)
  }

  function StoreErasedRef(r: Ref, tenant: TenantId, s: StoreId): Ref {
    if r.tenant == tenant && r.store == s then
      r.(noteBody := if r.kind.Callback? then None else r.noteBody,
         noteFingerprint := if r.kind.Callback? then None else r.noteFingerprint,
         query := if r.kind.Search? then None else r.query)
    else r
  }

  /** `disconnect`, on the rows modelled here. */
  function StoreDisconnectedFrom(db: Database, tenant: TenantId, s: StoreId, now: int): Database
    requires s in db.stores
  {
    db.(
      chats := map k | k in db.chats ::
        if db.chats[k].activeStore == Some(s) && db.chats[k].activeTenant == Some(tenant) then
          db.chats[k].(activeTenant := None, activeStore := None, revokedAt := Some(now))
        else db.chats[k],
      stores := db.stores[s := db.stores[s].(disconnected := true, deletedAt := Some(now))])
  }

  /** `erase` of a disconnected store, on the rows modelled here. */
  function StoreWipedFrom(db: Database, tenant: TenantId, s: StoreId): Database
    requires s in db.stores
  {
    db.(
      refs := map k | k in db.refs :: StoreErasedRef(db.refs[k], tenant, s),
      noteActions := map k | k in db.noteActions ::
        if db.noteActions[k].tenant == tenant && db.noteActions[k].store == s then
          db.noteActions[k].(fingerprint := Zeros, result := None)
        else db.noteActions[k],
      statusWrites := map k | k in db.statusWrites ::
        if db.statusWrites[k].tenant == tenant && db.statusWrites[k].store == s then db.statusWrites[k].(result := None)
        else db.statusWrites[k],
      stores := db.stores[s := db.stores[s].(url := ErasedUrl(s))])
  }

  function StoreErasedFrom(db: Database, tenant: TenantId, s: StoreId, now: int): Database
    requires s in db.stores
  {
    StoreWipedFrom(StoreDisconnectedFrom(db, tenant, s, now), tenant, s)
  }

  // Erasing a tenant

  predicate Lists(db: Database, tenant: TenantId, users: seq<UserId>) {
    && (forall u | u in users :: Member(tenant, u) in db.members)
    && (forall m | m in db.members && m.tenant == tenant :: m.user in users)
  }

  /** An erasure that was carried out. */
  datatype Erasure = Erasure(member: Member, at: int)

  /** The turn of a member in the loop over its tenant: a member that is already complete is skipped. */
  predicate Skips(db: Database, m: Member) {
    IdentityComplete(db, m, None) || m !in db.members || m.user !in db.users
  }

  function MemberTurn(db: Database, m: Member, now: int, randoms: Randoms): Database {
    if Skips(db, m) then db else IdentityErasedFrom(db, m, now, randoms)
  }

  /** The loop over the first `n` members. */
  function MembersErasedFrom(db: Database, tenant: TenantId, users: seq<UserId>, n: nat, now: int,
                             randoms: Randoms): Database
    requires n <= |users|
    decreases n
  {
    if n == 0 then db
    else MemberTurn(MembersErasedFrom(db, tenant, users, n - 1, now, randoms), Member(tenant, users[n - 1]), now,
                    randoms)
  }

  function Logged(log: set<Erasure>, db: Database, m: Member, now: int): set<Erasure> {
    if Skips(db, m) then log else log + {Erasure(m, now)}
  }

  /** The erasures of that loop. */
  function LoopErasures(db: Database, tenant: TenantId, users: seq<UserId>, n: nat, now: int,
                        randoms: Randoms): set<Erasure>
    requires n <= |users|
    decreases n
  {
    if n == 0 then {}
    else
      Logged(LoopErasures(db, tenant, users, n - 1, now, randoms),
             MembersErasedFrom(db, tenant, users, n - 1, now, randoms), Member(tenant, users[n - 1]), now)
  }

  /** What holds at the start and is kept by every turn holds at the end. */
  lemma {:induction false} LoopInduction(db: Database, tenant: TenantId, users: seq<UserId>, n: nat, now: int,
                                         randoms: Randoms, inv: (nat, Database, set<Erasure>) -> bool)
    requires n <= |users| && inv(0, db, {})
    requires forall i: nat, d, log | i < n && inv(i, d, log) ::
               inv(i + 1, MemberTurn(d, Member(tenant, users[i]), now, randoms),
                   Logged(log, d, Member(tenant, users[i]), now))
    ensures inv(n, MembersErasedFrom(db, tenant, users, n, now, randoms),
                LoopErasures(db, tenant, users, n, now, randoms))
    decreases n
  {
    if n > 0 {
      LoopInduction(db, tenant, users, n - 1, now, randoms, inv);
    }
  }

  function TenantClosed(db: Database, tenant: TenantId, now: int, name: Digest<Name>): Database
    requires tenant in db.tenants
  {
    db.(
      chats := map k | k in db.chats ::
        if db.chats[k].activeTenant == Some(tenant) then
          db.chats[k].(activeTenant := None, activeStore := None, revokedAt := Some(now))
        else db.chats[k],
      tenants := db.tenants[tenant := Tenant(ErasedName(tenant), Some(now), true)],
      audits := db.audits + {TenantErased(tenant, now, name)})
  }

  /** `eraseTenant`: `None` when the name is not the expected one or a store is not erased. */
  function EraseTenant(db: Database, tenant: TenantId, name: Digest<Name>, users: seq<UserId>, now: int,
                       randoms: Randoms): Option<Database>
  {
    if tenant !in db.tenants || Hash(db.tenants[tenant].name) != name then None
    else if exists s :: s in db.stores && db.stores[s].tenant == tenant && !StoreErased(s, db.stores[s]) then None
    else
      var erased := MembersErasedFrom(db, tenant, users, |users|, now, randoms);
      if tenant !in erased.tenants then None else Some(TenantClosed(erased, tenant, now, name))
  }

  /** `tenantErasureComplete`. */
  predicate TenantComplete(db: Database, tenant: TenantId, name: Digest<Name>) {
    && tenant in db.tenants && db.tenants[tenant].deletedAt.Some?
    && db.tenants[tenant].name == ErasedName(tenant) && db.tenants[tenant].suspended
    && TenantErased(tenant, db.tenants[tenant].deletedAt.value, name) in db.audits
    && (forall s | s in db.stores && db.stores[s].tenant == tenant :: StoreErased(s, db.stores[s]))
    && (forall m | m in db.members && m.tenant == tenant :: IdentityComplete(db, m, None))
    && (forall k | k in db.chats :: db.chats[k].activeTenant != Some(tenant))
  }

  // Several erasures

  predicate SameRef(a: Ref, b: Ref) {
    a.kind == b.kind && a.tenant == b.tenant && a.account == b.account && a.target == b.target
  }

  /** No erasure changes whom a reference belongs to, */
  predicate SameRefs(db: Database, after: Database) {
    after.refs.Keys == db.refs.Keys && forall k | k in db.refs :: SameRef(after.refs[k], db.refs[k])
  }

  /** nor who exists. */
  predicate SameSubjects(db: Database, after: Database) {
    && after.users.Keys == db.users.Keys && after.members.Keys == db.members.Keys
    && after.accounts.Keys == db.accounts.Keys
    && after.tenants.Keys == db.tenants.Keys && after.stores.Keys == db.stores.Keys
    && (forall s | s in db.stores :: after.stores[s].tenant == db.stores[s].tenant)
  }

  lemma TiesStay(db: Database, after: Database, m: Member, other: Member)
    requires SameSubjects(db, after) && SameRefs(db, after)
    ensures Tied(after, m, other) <==> Tied(db, m, other)
  {
    forall k | k in db.refs
      ensures TieSeen(after, after.refs[k], m, other) <==> TieSeen(db, db.refs[k], m, other)
    {
      assert SameRef(after.refs[k], db.refs[k]);
    }
  }

  /** A member tied to `m` was erased later than `m`. */
  predicate Outlived(db: Database, log: set<Erasure>, m: Member) {
    && m in db.members && db.members[m].Some?
    && exists x :: x in log && x.member != m && Disturbs(db, m, db.members[m].value, x.member, x.at)
  }

  /** The erasure of `m` is complete unless a tied member was erased later. */
  predicate Tracked(db: Database, log: set<Erasure>, m: Member) {
    IdentityComplete(db, m, None) || Outlived(db, log, m)
  }

  /** The erasure of `x` expires the reference. */
  predicate Touches(db: Database, r: Ref, x: Member) {
    r.kind.Settings? && r.tenant == x.tenant && (r.target == Some(x) || (r.account == x.user && x.user in db.accounts))
  }

  /** The erasures were of members, and no reference that one of them expired has an earlier expiry. */
  predicate Stamped(db: Database, log: set<Erasure>) {
    && (forall x | x in log :: x.member in db.members)
    && (forall k, x | k in db.refs && x in log :: Touches(db, db.refs[k], x.member) ==> x.at <= db.refs[k].expiresAt)
  }

  predicate UpTo(log: set<Erasure>, now: int) {
    forall x | x in log :: x.at <= now
  }

  lemma OutlivedIsIncomplete(db: Database, log: set<Erasure>, m: Member, email: Option<Digest<Email>>)
    requires Stamped(db, log) && Outlived(db, log, m)
    ensures !IdentityComplete(db, m, email)
  {
    var x :| x in log && x.member != m && Disturbs(db, m, db.members[m].value, x.member, x.at);
    var k :| k in db.refs && TieSeen(db, db.refs[k], m, x.member);
    assert Touches(db, db.refs[k], x.member) && x.at <= db.refs[k].expiresAt;
    assert !TargetExpired(db.refs[k], m, db.members[m].value) || !RefClean(db.refs[k], m, db.members[m].value);
  }

  lemma IdentityFrame(db: Database, m: Member, now: int, randoms: Randoms)
    requires m in db.members && m.user in db.users
    ensures var after := IdentityErasedFrom(db, m, now, randoms);
            && SameSubjects(db, after) && SameRefs(db, after) && after.tenants == db.tenants
            && after.stores == db.stores
            && db.audits <= after.audits && after.members == db.members[m := Some(now)]
  {
  }

  lemma IdentityStamps(db: Database, log: set<Erasure>, m: Member, now: int, randoms: Randoms)
    requires m in db.members && m.user in db.users && Stamped(db, log) && UpTo(log, now)
    ensures Stamped(IdentityErasedFrom(db, m, now, randoms), log + {Erasure(m, now)})
  {
    var after := IdentityErasedFrom(db, m, now, randoms);
    IdentityFrame(db, m, now, randoms);
    forall k, x | k in after.refs && x in log + {Erasure(m, now)} && Touches(after, after.refs[k], x.member)
      ensures x.at <= after.refs[k].expiresAt
    {
      assert after.refs[k] == ErasedRef(db.refs[k], m, m.user in db.accounts, now, randoms);
      if x in log {
        assert Touches(db, db.refs[k], x.member);
      }
    }
  }

  lemma OutlivedStays(db: Database, after: Database, log: set<Erasure>, more: set<Erasure>, m: Member)
    requires Outlived(db, log, m) && SameSubjects(db, after) && SameRefs(db, after) && log <= more
    requires m in after.members && after.members[m] == db.members[m]
    ensures Outlived(after, more, m)
  {
    var x :| x in log && x.member != m && Disturbs(db, m, db.members[m].value, x.member, x.at);
    TiesStay(db, after, m, x.member);
  }

  /** One more erasure: the member itself becomes complete, another stays complete unless it is now outlived. */
  lemma IdentityTracks(db: Database, log: set<Erasure>, x: Member, now: int, randoms: Randoms, m: Member)
    requires x in db.members && x.user in db.users && (m == x || Tracked(db, log, m))
    ensures Tracked(IdentityErasedFrom(db, x, now, randoms), log + {Erasure(x, now)}, m)
  {
    var after, more := IdentityErasedFrom(db, x, now, randoms), log + {Erasure(x, now)};
    assert EraseIdentity(db, x, now, None, randoms) == Some(after);
    IdentityFrame(db, x, now, randoms);
    if m == x {
      EraseThenComplete(db, x, now, None, randoms);
    } else if Outlived(db, log, m) {
      OutlivedStays(db, after, log, more, m);
    } else {
      ErasingAnotherIff(db, m, None, x, now, None, randoms);
      TiesStay(db, after, m, x);
      assert Erasure(x, now) in more;
    }
  }

  /** No settings reference ties two members. */
  predicate NoTies(db: Database) {
    forall m, other | m in db.members && other in db.members :: m != other ==> !Tied(db, m, other)
  }

  lemma NoTiesStays(db: Database, after: Database)
    requires NoTies(db) && SameSubjects(db, after) && SameRefs(db, after)
    ensures NoTies(after)
  {
    forall m, other | m in after.members && other in after.members && m != other
      ensures !Tied(after, m, other)
    {
      TiesStay(db, after, m, other);
    }
  }

  lemma NotOutlived(db: Database, log: set<Erasure>, m: Member)
    requires NoTies(db) && Stamped(db, log)
    ensures !Outlived(db, log, m)
  {
  }

  // Erasing a tenant makes its check succeed, but for ties with members erased before

  /** What the loop over a tenant's members leaves as it was. */
  predicate Framed(db: Database, after: Database) {
    && SameSubjects(db, after) && SameRefs(db, after)
    && after.tenants == db.tenants && after.stores == db.stores && db.audits <= after.audits
  }

  lemma {:induction false} LoopFrame(db: Database, tenant: TenantId, users: seq<UserId>, n: nat, now: int,
                                     randoms: Randoms)
    requires n <= |users|
    ensures Framed(db, MembersErasedFrom(db, tenant, users, n, now, randoms))
    decreases n
  {
    if n > 0 {
      LoopFrame(db, tenant, users, n - 1, now, randoms);
      var before, m := MembersErasedFrom(db, tenant, users, n - 1, now, randoms), Member(tenant, users[n - 1]);
      if !Skips(before, m) {
        IdentityFrame(before, m, now, randoms);
        FramedTrans(db, before, IdentityErasedFrom(before, m, now, randoms));
      }
    }
  }

  lemma FramedTrans(a: Database, b: Database, c: Database)
    requires Framed(a, b) && Framed(b, c)
    ensures Framed(a, c)
  {
    forall k | k in a.refs
      ensures SameRef(c.refs[k], a.refs[k])
    {
      assert SameRef(b.refs[k], a.refs[k]) && SameRef(c.refs[k], b.refs[k]);
    }
  }

  /** Exactly the members that the loop erased have its time; the others keep theirs. */
  lemma {:induction false} LoopDates(db: Database, tenant: TenantId, users: seq<UserId>, n: nat, now: int,
                                     randoms: Randoms, m: Member)
    requires n <= |users| && m in db.members
    ensures var after := MembersErasedFrom(db, tenant, users, n, now, randoms);
            && m in after.members
            && after.members[m] ==
                 if Erasure(m, now) in LoopErasures(db, tenant, users, n, now, randoms) then Some(now)
                 else db.members[m]
    decreases n
  {
    if n > 0 {
      LoopDates(db, tenant, users, n - 1, now, randoms, m);
      var before, x := MembersErasedFrom(db, tenant, users, n - 1, now, randoms), Member(tenant, users[n - 1]);
      if !Skips(before, x) {
        IdentityFrame(before, x, now, randoms);
      }
    }
  }

  lemma {:induction false} LoopTimes(db: Database, tenant: TenantId, users: seq<UserId>, n: nat, now: int,
                                     randoms: Randoms)
    requires n <= |users|
    ensures forall x | x in LoopErasures(db, tenant, users, n, now, randoms) :: x.at == now && x.member.tenant == tenant
    decreases n
  {
    if n > 0 {
      LoopTimes(db, tenant, users, n - 1, now, randoms);
    }
  }

  lemma MemberTurnStamps(db: Database, log: set<Erasure>, more: set<Erasure>, m: Member, now: int, randoms: Randoms)
    requires Stamped(db, log + more) && UpTo(log + more, now)
    ensures Stamped(MemberTurn(db, m, now, randoms), log + Logged(more, db, m, now))
    ensures UpTo(log + Logged(more, db, m, now), now)
  {
    if !Skips(db, m) {
      IdentityStamps(db, log + more, m, now, randoms);
      assert log + Logged(more, db, m, now) == log + more + {Erasure(m, now)};
    }
  }

  lemma LoopStamps(db: Database, log: set<Erasure>, tenant: TenantId, users: seq<UserId>, n: nat, now: int,
                   randoms: Randoms)
    requires n <= |users| && Stamped(db, log) && UpTo(log, now)
    ensures Stamped(MembersErasedFrom(db, tenant, users, n, now, randoms),
                    log + LoopErasures(db, tenant, users, n, now, randoms))
  {
    var inv := (i: nat, d: Database, more: set<Erasure>) => Stamped(d, log + more) && UpTo(log + more, now);
    assert log + {} == log;
    forall i: nat, d, more | i < n && inv(i, d, more)
      ensures inv(i + 1, MemberTurn(d, Member(tenant, users[i]), now, randoms),
                  Logged(more, d, Member(tenant, users[i]), now))
    {
      MemberTurnStamps(d, log, more, Member(tenant, users[i]), now, randoms);
    }
    LoopInduction(db, tenant, users, n, now, randoms, inv);
  }

  /** The member was tracked at the start, or the loop over a tenant has come to it. */
  predicate ComeTo(db: Database, log: set<Erasure>, tenant: TenantId, users: seq<UserId>, i: nat, m: Member) {
    Tracked(db, log, m) || (m.tenant == tenant && i <= |users| && m.user in users[..i])
  }

  lemma MemberTurnTracks(db: Database, log: set<Erasure>, more: set<Erasure>, x: Member, now: int, randoms: Randoms,
                         m: Member)
    requires Tracked(db, log + more, m) || (m == x && m in db.members && m.user in db.users)
    ensures Tracked(MemberTurn(db, x, now, randoms), log + Logged(more, db, x, now), m)
  {
    if !Skips(db, x) {
      IdentityTracks(db, log + more, x, now, randoms, m);
      assert log + Logged(more, db, x, now) == log + more + {Erasure(x, now)};
    }
  }

  /** The loop keeps track of a member that was tracked, and of every member it has come to. */
  lemma LoopTracks(db: Database, log: set<Erasure>, tenant: TenantId, users: seq<UserId>, n: nat, now: int,
                   randoms: Randoms, m: Member)
    requires n <= |users| && m in db.members && m.user in db.users && ComeTo(db, log, tenant, users, n, m)
    ensures Tracked(MembersErasedFrom(db, tenant, users, n, now, randoms),
                    log + LoopErasures(db, tenant, users, n, now, randoms), m)
  {
    var inv := (i: nat, d: Database, more: set<Erasure>) =>
      && m in d.members && m.user in d.users
      && (ComeTo(db, log, tenant, users, i, m) ==> Tracked(d, log + more, m));
    assert log + {} == log;
    forall i: nat, d, more | i < n && inv(i, d, more)
      ensures inv(i + 1, MemberTurn(d, Member(tenant, users[i]), now, randoms),
                  Logged(more, d, Member(tenant, users[i]), now))
    {
      var x := Member(tenant, users[i]);
      if !Skips(d, x) {
        IdentityFrame(d, x, now, randoms);
      }
      assert users[..i + 1] == users[..i] + [users[i]];
      if ComeTo(db, log, tenant, users, i + 1, m) {
        MemberTurnTracks(d, log, more, x, now, randoms, m);
      }
    }
    LoopInduction(db, tenant, users, n, now, randoms, inv);
  }

  lemma ClosingKeepsComplete(db: Database, tenant: TenantId, now: int, name: Digest<Name>, m: Member,
                             email: Option<Digest<Email>>)
    requires tenant in db.tenants && IdentityComplete(db, m, email)
    ensures IdentityComplete(TenantClosed(db, tenant, now, name), m, email)
  {
    var after := TenantClosed(db, tenant, now, name);
    assert Shared(after, m) == Shared(db, m);
    assert RowsClean(after, m, db.members[m].value);
  }

  lemma ClosingTracks(db: Database, log: set<Erasure>, tenant: TenantId, now: int, name: Digest<Name>, m: Member)
    requires tenant in db.tenants && Tracked(db, log, m)
    ensures Tracked(TenantClosed(db, tenant, now, name), log, m)
  {
    if Outlived(db, log, m) {
      OutlivedStays(db, TenantClosed(db, tenant, now, name), log, log, m);
    } else {
      ClosingKeepsComplete(db, tenant, now, name, m, None);
    }
  }

  /** A tenant's erasure keeps track of its own members and of every member tracked before. */
  lemma TenantTracks(db: Database, log: set<Erasure>, tenant: TenantId, name: Digest<Name>, users: seq<UserId>,
                     now: int, randoms: Randoms, m: Member)
    requires Consistent(db) && Lists(db, tenant, users) && tenant in db.tenants
    requires Tracked(db, log, m) || (m in db.members && m.tenant == tenant)
    ensures var erased := MembersErasedFrom(db, tenant, users, |users|, now, randoms);
            && Framed(db, erased)
            && Tracked(TenantClosed(erased, tenant, now, name),
                       log + LoopErasures(db, tenant, users, |users|, now, randoms), m)
  {
    assert users[..|users|] == users;
    LoopFrame(db, tenant, users, |users|, now, randoms);
    LoopTracks(db, log, tenant, users, |users|, now, randoms, m);
    ClosingTracks(MembersErasedFrom(db, tenant, users, |users|, now, randoms),
                  log + LoopErasures(db, tenant, users, |users|, now, randoms), tenant, now, name, m);
  }

  lemma TenantStamps(db: Database, log: set<Erasure>, tenant: TenantId, name: Digest<Name>, users: seq<UserId>,
                     now: int, randoms: Randoms)
    requires tenant in db.tenants && Stamped(db, log) && UpTo(log, now)
    ensures var erased := MembersErasedFrom(db, tenant, users, |users|, now, randoms);
            && Framed(db, erased)
            && Stamped(TenantClosed(erased, tenant, now, name),
                       log + LoopErasures(db, tenant, users, |users|, now, randoms))
  {
    LoopFrame(db, tenant, users, |users|, now, randoms);
    LoopStamps(db, log, tenant, users, |users|, now, randoms);
  }

  /** What a closed tenant looks like, apart from its members and its audit row. */
  predicate Closed(db: Database, tenant: TenantId) {
    && tenant in db.tenants && db.tenants[tenant].deletedAt.Some?
    && db.tenants[tenant].name == ErasedName(tenant) && db.tenants[tenant].suspended
    && (forall s | s in db.stores && db.stores[s].tenant == tenant :: StoreErased(s, db.stores[s]))
    && (forall k | k in db.chats :: db.chats[k].activeTenant != Some(tenant))
  }

  /** The tenant's last closing was recorded with this name. */
  predicate ClosedAs(db: Database, tenant: TenantId, name: Digest<Name>) {
    && tenant in db.tenants && db.tenants[tenant].deletedAt.Some?
    && TenantErased(tenant, db.tenants[tenant].deletedAt.value, name) in db.audits
  }

  lemma TenantCloses(db: Database, tenant: TenantId, name: Digest<Name>, users: seq<UserId>, now: int, randoms: Randoms)
    requires EraseTenant(db, tenant, name, users, now, randoms).Some?
    ensures var after := EraseTenant(db, tenant, name, users, now, randoms).value;
            Closed(after, tenant) && ClosedAs(after, tenant, name)
  {
    LoopFrame(db, tenant, users, |users|, now, randoms);
  }

  /** The erasure passes over a member with an earlier deletion and erases another one tied to it. */
  predicate LeavesTied(db: Database, tenant: TenantId, erasures: set<Erasure>, now: int) {
    exists m, x :: m in db.members && m.tenant == tenant && Erasure(m, now) !in erasures && x in erasures
                   && db.members[m].Some? && Disturbs(db, m, db.members[m].value, x.member, now)
  }

  lemma OutlivedInLoop(db: Database, tenant: TenantId, name: Digest<Name>, users: seq<UserId>, now: int,
                       randoms: Randoms, m: Member)
    requires tenant in db.tenants && m in db.members
    ensures var erased := MembersErasedFrom(db, tenant, users, |users|, now, randoms);
            var log := LoopErasures(db, tenant, users, |users|, now, randoms);
            && Framed(db, erased)
            && (Outlived(TenantClosed(erased, tenant, now, name), log, m) <==>
                  Erasure(m, now) !in log && db.members[m].Some?
                  && exists x :: x in log && Disturbs(db, m, db.members[m].value, x.member, now))
  {
    var erased := MembersErasedFrom(db, tenant, users, |users|, now, randoms);
    LoopFrame(db, tenant, users, |users|, now, randoms);
    LoopDates(db, tenant, users, |users|, now, randoms, m);
    LoopTimes(db, tenant, users, |users|, now, randoms);
    var after := TenantClosed(erased, tenant, now, name);
    forall x: Member
      ensures Tied(after, m, x) <==> Tied(db, m, x)
    {
      TiesStay(db, after, m, x);
    }
  }

  /**
   After a tenant's erasure commits its check succeeds, exactly unless the erasure passed over a member that was
   complete from an earlier deletion and erased another member tied to it by a settings reference.
  */
  lemma EraseTenantCompleteIff(db: Database, tenant: TenantId, name: Digest<Name>, users: seq<UserId>, now: int,
                               randoms: Randoms)
    requires Consistent(db) && Lists(db, tenant, users)
    requires EraseTenant(db, tenant, name, users, now, randoms).Some?
    ensures TenantComplete(EraseTenant(db, tenant, name, users, now, randoms).value, tenant, name)
            <==> !LeavesTied(db, tenant, LoopErasures(db, tenant, users, |users|, now, randoms), now)
  {
    var log := LoopErasures(db, tenant, users, |users|, now, randoms);
    var after := EraseTenant(db, tenant, name, users, now, randoms).value;
    TenantCloses(db, tenant, name, users, now, randoms);
    TenantStamps(db, {}, tenant, name, users, now, randoms);
    assert {} + log == log;
    forall m | m in db.members && m.tenant == tenant
      ensures m in after.members
      ensures IdentityComplete(after, m, None) <==> !Outlived(after, log, m)
      ensures Outlived(after, log, m) <==>
                Erasure(m, now) !in log && db.members[m].Some?
                && exists x :: x in log && Disturbs(db, m, db.members[m].value, x.member, now)
    {
      TenantTracks(db, {}, tenant, name, users, now, randoms, m);
      OutlivedInLoop(db, tenant, name, users, now, randoms, m);
      if Outlived(after, log, m) {
        OutlivedIsIncomplete(after, log, m, None);
      }
    }
    assert after.members.Keys == db.members.Keys;
  }

  lemma EarlierListed(db: Database, tenant: TenantId, a: Member, b: Member, users: seq<UserId>, now: int,
                      randoms: Randoms)
    requires |users| == 2 && a == Member(tenant, users[0]) && b == Member(tenant, users[1])
    requires Skips(db, a) && !Skips(db, b)
    ensures LoopErasures(db, tenant, users, 2, now, randoms) == {Erasure(b, now)}
  {
    TwoTurns(db, tenant, a, b, users, now, randoms);
  }

  lemma LaterListed(db: Database, tenant: TenantId, a: Member, b: Member, users: seq<UserId>, now: int,
                    randoms: Randoms)
    requires |users| == 2 && b == Member(tenant, users[0]) && a == Member(tenant, users[1])
    requires a != b && Tied(db, a, b) && IdentityComplete(db, a, None) && db.members[a].value < now && !Skips(db, b)
    ensures LoopErasures(db, tenant, users, 2, now, randoms) == {Erasure(b, now), Erasure(a, now)}
  {
    TwoTurns(db, tenant, b, a, users, now, randoms);
    assert EraseIdentity(db, b, now, None, randoms) == Some(IdentityErasedFrom(db, b, now, randoms));
    ErasingAnotherIff(db, a, None, b, now, None, randoms);
    IdentityFrame(db, b, now, randoms);
  }

  lemma TwoTurns(db: Database, tenant: TenantId, x: Member, y: Member, users: seq<UserId>, now: int, randoms: Randoms)
    requires |users| == 2 && x == Member(tenant, users[0]) && y == Member(tenant, users[1])
    ensures var first := if Skips(db, x) then {} else {Erasure(x, now)};
            LoopErasures(db, tenant, users, 2, now, randoms) ==
              if Skips(MemberTurn(db, x, now, randoms), y) then first else first + {Erasure(y, now)}
  {
    assert MembersErasedFrom(db, tenant, users, 0, now, randoms) == db;
    assert MembersErasedFrom(db, tenant, users, 1, now, randoms) == MemberTurn(db, x, now, randoms);
    assert LoopErasures(db, tenant, users, 1, now, randoms) == if Skips(db, x) then {} else {Erasure(x, now)};
  }

  /** A member erased before and another tied to it: listed first, the former is passed over and then outlived, */
  lemma ListedFirstFails(db: Database, name: Digest<Name>, a: Member, b: Member, users: seq<UserId>, now: int,
                         randoms: Randoms)
    requires Consistent(db) && Lists(db, a.tenant, users) && users == [a.user, b.user]
    requires a != b && a.tenant == b.tenant && Tied(db, a, b)
    requires IdentityComplete(db, a, None) && db.members[a].value < now && !IdentityComplete(db, b, None)
    requires EraseTenant(db, a.tenant, name, users, now, randoms).Some?
    ensures !TenantComplete(EraseTenant(db, a.tenant, name, users, now, randoms).value, a.tenant, name)
  {
    assert users[1] in users;
    EarlierListed(db, a.tenant, a, b, users, now, randoms);
    EraseTenantCompleteIff(db, a.tenant, name, users, now, randoms);
    assert Disturbs(db, a, db.members[a].value, b, now);
  }

  /** listed last, it is found incomplete and erased again. */
  lemma ListedLastWorks(db: Database, name: Digest<Name>, a: Member, b: Member, users: seq<UserId>, now: int,
                        randoms: Randoms)
    requires Consistent(db) && Lists(db, a.tenant, users) && users == [b.user, a.user]
    requires a != b && a.tenant == b.tenant && Tied(db, a, b)
    requires IdentityComplete(db, a, None) && db.members[a].value < now && !IdentityComplete(db, b, None)
    requires EraseTenant(db, a.tenant, name, users, now, randoms).Some?
    ensures TenantComplete(EraseTenant(db, a.tenant, name, users, now, randoms).value, a.tenant, name)
  {
    assert users[0] in users;
    LaterListed(db, a.tenant, a, b, users, now, randoms);
    EraseTenantCompleteIff(db, a.tenant, name, users, now, randoms);
    forall m | m in db.members && m.tenant == a.tenant
      ensures m == a || m == b
    {
      assert m.user in users;
    }
  }

  /** Without ties, the loop passes over a member that is complete. */
  lemma {:induction false} LoopPassesOver(db: Database, tenant: TenantId, users: seq<UserId>, n: nat, now: int,
                                          randoms: Randoms, m: Member)
    requires n <= |users| && NoTies(db) && IdentityComplete(db, m, None)
    ensures var after := MembersErasedFrom(db, tenant, users, n, now, randoms);
            IdentityComplete(after, m, None) && after.members[m] == db.members[m]
    decreases n
  {
    LoopFrame(db, tenant, users, n, now, randoms);
    LoopTracks(db, {}, tenant, users, n, now, randoms, m);
    LoopStamps(db, {}, tenant, users, n, now, randoms);
    var after := MembersErasedFrom(db, tenant, users, n, now, randoms);
    NoTiesStays(db, after);
    NotOutlived(after, {} + LoopErasures(db, tenant, users, n, now, randoms), m);
    if n > 0 {
      LoopPassesOver(db, tenant, users, n - 1, now, randoms, m);
      var before, x := MembersErasedFrom(db, tenant, users, n - 1, now, randoms), Member(tenant, users[n - 1]);
      if !Skips(before, x) {
        IdentityFrame(before, x, now, randoms);
      }
    }
  }

  lemma DisconnectKeepsComplete(db: Database, tenant: TenantId, s: StoreId, now: int, m: Member,
                                email: Option<Digest<Email>>)
    requires s in db.stores && IdentityComplete(db, m, email)
    ensures IdentityComplete(StoreDisconnectedFrom(db, tenant, s, now), m, email)
  {
    var after := StoreDisconnectedFrom(db, tenant, s, now);
    assert Shared(after, m) == Shared(db, m);
    assert RowsClean(after, m, db.members[m].value);
  }

  lemma WipeKeepsRows(db: Database, tenant: TenantId, s: StoreId, m: Member, deletedAt: int)
    requires s in db.stores && RowsClean(db, m, deletedAt)
    ensures RowsClean(StoreWipedFrom(db, tenant, s), m, deletedAt)
  {
  }

  lemma WipeKeepsComplete(db: Database, tenant: TenantId, s: StoreId, m: Member, email: Option<Digest<Email>>)
    requires s in db.stores && IdentityComplete(db, m, email)
    ensures IdentityComplete(StoreWipedFrom(db, tenant, s), m, email)
  {
    assert Shared(StoreWipedFrom(db, tenant, s), m) == Shared(db, m);
    WipeKeepsRows(db, tenant, s, m, db.members[m].value);
  }

  /** Disconnecting and erasing a store undoes no member's erasure. */
  lemma StoreKeepsComplete(db: Database, tenant: TenantId, s: StoreId, now: int, m: Member,
                           email: Option<Digest<Email>>)
    requires s in db.stores && IdentityComplete(db, m, email)
    ensures IdentityComplete(StoreErasedFrom(db, tenant, s, now), m, email)
  {
    DisconnectKeepsComplete(db, tenant, s, now, m, email);
    WipeKeepsComplete(StoreDisconnectedFrom(db, tenant, s, now), tenant, s, m, email);
  }

  lemma StoreFrame(db: Database, tenant: TenantId, s: StoreId, now: int)
    requires s in db.stores
    ensures var after := StoreErasedFrom(db, tenant, s, now);
            && SameSubjects(db, after) && SameRefs(db, after) && after.members == db.members && after.users == db.users
            && after.audits == db.audits && after.tenants == db.tenants
            && forall k | k in db.refs :: after.refs[k].expiresAt == db.refs[k].expiresAt
  {
  }

  lemma StoreTracks(db: Database, log: set<Erasure>, tenant: TenantId, s: StoreId, now: int, m: Member)
    requires s in db.stores && Tracked(db, log, m)
    ensures Tracked(StoreErasedFrom(db, tenant, s, now), log, m)
  {
    StoreFrame(db, tenant, s, now);
    if Outlived(db, log, m) {
      OutlivedStays(db, StoreErasedFrom(db, tenant, s, now), log, log, m);
    } else {
      StoreKeepsComplete(db, tenant, s, now, m, None);
    }
  }

  lemma StoreStamps(db: Database, log: set<Erasure>, tenant: TenantId, s: StoreId, now: int)
    requires s in db.stores && Stamped(db, log)
    ensures Stamped(StoreErasedFrom(db, tenant, s, now), log)
  {
    StoreFrame(db, tenant, s, now);
    var after := StoreErasedFrom(db, tenant, s, now);
    forall k, x | k in after.refs && x in log && Touches(after, after.refs[k], x.member)
      ensures x.at <= after.refs[k].expiresAt
    {
      assert SameRef(after.refs[k], db.refs[k]) && Touches(db, db.refs[k], x.member);
    }
  }

  // Who keeps an email

  lemma SharedSame(db: Database, after: Database, m: Member)
    requires SameSubjects(db, after)
    ensures Shared(after, m) <==> Shared(db, m)
  {
  }

  /** The email of a member with other tenants is kept. */
  predicate KeepsEmail(db: Database, after: Database, m: Member) {
    m in db.members && m.user in db.users && Shared(db, m) ==>
      m.user in after.users && after.users[m.user].email == db.users[m.user].email
  }

  lemma {:induction false} LoopKeepsEmail(db: Database, tenant: TenantId, users: seq<UserId>, n: nat, now: int,
                                          randoms: Randoms, m: Member)
    requires n <= |users|
    ensures KeepsEmail(db, MembersErasedFrom(db, tenant, users, n, now, randoms), m)
    decreases n
  {
    if n > 0 {
      LoopKeepsEmail(db, tenant, users, n - 1, now, randoms, m);
      LoopFrame(db, tenant, users, n - 1, now, randoms);
      var before, x := MembersErasedFrom(db, tenant, users, n - 1, now, randoms), Member(tenant, users[n - 1]);
      SharedSame(db, before, m);
      if !Skips(before, x) {
        IdentityKeepsEmail(before, x, now, randoms, m);
      }
    }
  }

  lemma IdentityKeepsEmail(db: Database, x: Member, now: int, randoms: Randoms, m: Member)
    requires x in db.members && x.user in db.users
    ensures KeepsEmail(db, IdentityErasedFrom(db, x, now, randoms), m)
  {
    if m in db.members && Shared(db, m) && m.user == x.user {
      assert Shared(db, x);
    }
  }

  // What an erasure leaves alone

  /** Whom and what erasures were about. */
  datatype Scope = Scope(members: set<Member>, tenants: set<TenantId>, stores: set<StoreId>)

  /** The user behind one of the members, who belongs to no other tenant. */
  predicate UserErased(db: Database, u: UserId, members: set<Member>) {
    exists x :: x in members && x.user == u && !Shared(db, x)
  }

  /** Users, accounts and tokens of others, and of those who belong to another tenant, stay; so do other memberships. */
  predicate PeopleKept(db: Database, after: Database, members: set<Member>) {
    && SameSubjects(db, after)
    && (forall u | u in db.users && !UserErased(db, u, members) :: after.users[u] == db.users[u])
    && (forall m | m in db.members && m !in members :: after.members[m] == db.members[m])
    && (forall u | u in db.accounts && !UserErased(db, u, members) :: after.accounts[u] == db.accounts[u])
    && (forall k | k in after.linkTokens :: k in db.linkTokens)
    && (forall k | k in db.linkTokens && !UserErased(db, db.linkTokens[k], members) ::
          k in after.linkTokens && after.linkTokens[k] == db.linkTokens[k])
    && (forall k | k in after.recipients :: k in db.recipients)
    && (forall k | k in db.recipients && db.recipients[k] !in members ::
          k in after.recipients && after.recipients[k] == db.recipients[k])
  }

  /**
   The chat is the user's (and, if the user has other tenants, active in this one), or is in use for a tenant or
   store.
  */
  predicate ChatTouched(db: Database, c: Chat, scope: Scope) {
    || (exists x :: x in scope.members && x.user == c.account && (!Shared(db, x) || c.activeTenant == Some(x.tenant)))
    || (c.activeTenant.Some? && c.activeTenant.value in scope.tenants)
    || (c.activeStore.Some? && c.activeStore.value in scope.stores)
  }

  predicate RefTouched(r: Ref, scope: Scope) {
    || Member(r.tenant, r.account) in scope.members
    || (r.target.Some? && r.target.value in scope.members && r.target.value.tenant == r.tenant)
    || r.store in scope.stores
  }

  /** Chats, references, actions, writes and deliveries of others stay. */
  predicate RowsKept(db: Database, after: Database, scope: Scope) {
    && after.chats.Keys == db.chats.Keys && after.refs.Keys == db.refs.Keys
    && after.noteActions.Keys == db.noteActions.Keys && after.statusWrites.Keys == db.statusWrites.Keys
    && after.deliveries.Keys == db.deliveries.Keys
    && (forall k | k in db.chats && !ChatTouched(db, db.chats[k], scope) :: after.chats[k] == db.chats[k])
    && (forall k | k in db.refs && !RefTouched(db.refs[k], scope) :: after.refs[k] == db.refs[k])
    && (forall k | k in db.noteActions && Member(db.noteActions[k].tenant, db.noteActions[k].account) !in scope.members
                   && db.noteActions[k].store !in scope.stores ::
          after.noteActions[k] == db.noteActions[k])
    && (forall k | k in db.statusWrites && db.statusWrites[k].store !in scope.stores
                   && Member(db.statusWrites[k].tenant, db.statusWrites[k].account) !in scope.members ::
          after.statusWrites[k] == db.statusWrites[k])
    && (forall k | k in db.deliveries && Member(db.deliveries[k].tenant, db.deliveries[k].account) !in scope.members ::
          after.deliveries[k] == db.deliveries[k])
  }

  /** Other tenants and stores stay, and the audit grows by erasures of the scope only. */
  predicate HousesKept(db: Database, after: Database, scope: Scope) {
    && after.tenants.Keys == db.tenants.Keys && after.stores.Keys == db.stores.Keys
    && (forall t | t in db.tenants && t !in scope.tenants :: after.tenants[t] == db.tenants[t])
    && (forall s | s in db.stores && s !in scope.stores :: after.stores[s] == db.stores[s])
    && db.audits <= after.audits
    && (forall a | a in after.audits && a !in db.audits ::
          if a.IdentityErased? then a.member in scope.members else a.tenant in scope.tenants)
  }

  predicate Confined(db: Database, after: Database, scope: Scope) {
    PeopleKept(db, after, scope.members) && RowsKept(db, after, scope) && HousesKept(db, after, scope)
  }

  lemma PeopleOfErasure(db: Database, m: Member, now: int, randoms: Randoms)
    requires m in db.members && m.user in db.users
    ensures PeopleKept(db, IdentityErasedFrom(db, m, now, randoms), {m})
  {
    assert m in {m};
    assert !Shared(db, m) ==> UserErased(db, m.user, {m});
  }

  lemma RowsOfErasure(db: Database, m: Member, now: int, randoms: Randoms)
    requires m in db.members && m.user in db.users
    ensures RowsKept(db, IdentityErasedFrom(db, m, now, randoms), Scope({m}, {}, {}))
  {
    assert m in {m};
  }

  lemma ErasureScope(db: Database, m: Member, now: int, randoms: Randoms)
    requires m in db.members && m.user in db.users
    ensures Confined(db, IdentityErasedFrom(db, m, now, randoms), Scope({m}, {}, {}))
  {
    PeopleOfErasure(db, m, now, randoms);
    RowsOfErasure(db, m, now, randoms);
  }

  /**
   Erasing a member touches nothing of anybody else, and of a member with other tenants only what belongs to this one.
   It adds one audit row.
  */
  lemma ErasureKeeps(db: Database, m: Member, now: int, email: Option<Digest<Email>>, randoms: Randoms)
    requires EraseIdentity(db, m, now, email, randoms).Some?
    ensures var after := EraseIdentity(db, m, now, email, randoms).value;
            && Confined(db, after, Scope({m}, {}, {})) && after.members[m] == Some(now)
            && after.audits == db.audits + {IdentityErased(m, now, Hash(db.users[m.user].email), Shared(db, m))}
  {
    ErasureScope(db, m, now, randoms);
  }

  /** Of the member's own rows it changes what identifies or reaches the person, and not what they are about. */
  lemma OwnRows(db: Database, m: Member, now: int, randoms: Randoms)
    requires m in db.members && m.user in db.users
    ensures var after := IdentityErasedFrom(db, m, now, randoms);
            && (forall k | k in db.refs ::
                  && k in after.refs
                  && var r, next := db.refs[k], after.refs[k];
                     && SameRef(r, next) && next.store == r.store
                     && (r.expiresAt != next.expiresAt ==> next.expiresAt == now)
                     && (Member(r.tenant, r.account) != m ==> next == r.(expiresAt := next.expiresAt))
                     && (r.kind != Callback ==>
                           next.noteBody == r.noteBody && next.noteFingerprint == r.noteFingerprint)
                     && (r.kind != Search ==> next.query == r.query))
            && (forall k | k in db.noteActions ::
                  && k in after.noteActions
                  && var a, next := db.noteActions[k], after.noteActions[k];
                     a.tenant == next.tenant && a.store == next.store && a.account == next.account)
            && (forall k | k in db.statusWrites ::
                  && k in after.statusWrites
                  && after.statusWrites[k] == db.statusWrites[k].(result := after.statusWrites[k].result))
            && (forall k | k in db.deliveries ::
                  && k in after.deliveries
                  && var d, next := db.deliveries[k], after.deliveries[k];
                     && d.tenant == next.tenant && d.account == next.account
                     && (next.state != d.state ==> !Final(d.state) && next.state == TerminalFailure))
  {
  }

  /** Chats of the person are revoked: all of them with a new id, or the ones in use for this tenant with theirs. */
  lemma OwnChats(db: Database, m: Member, now: int, randoms: Randoms)
    requires m in db.members && m.user in db.users
    ensures var after := IdentityErasedFrom(db, m, now, randoms);
            && after.chats.Keys == db.chats.Keys
            && (forall k | k in db.chats && db.chats[k].account == m.user && m.user in db.accounts ::
                  var c, next := db.chats[k], after.chats[k];
                  && (!Shared(db, m) ==>
                        next == Chat(m.user, next.telegramChat, None, None, Some(now)) && next.telegramChat < 0)
                  && (Shared(db, m) && c.activeTenant == Some(m.tenant) ==>
                        next == Chat(m.user, c.telegramChat, None, None, Some(now))))
            && (!Shared(db, m) && m.user in db.accounts ==>
                  && after.accounts[m.user] == Account(after.accounts[m.user].telegramUser, Some(now), None, None)
                  && after.accounts[m.user].telegramUser < 0)
  {
  }

  /** The chats in use for an erased tenant or store are closed, and the others are not. */
  lemma ClosedChats(db: Database, tenant: TenantId, s: StoreId, now: int, name: Digest<Name>, k: RowId)
    requires tenant in db.tenants && s in db.stores && k in db.chats
    ensures var c := db.chats[k];
            var closed := c.(activeTenant := None, activeStore := None, revokedAt := Some(now));
            && k in TenantClosed(db, tenant, now, name).chats && k in StoreDisconnectedFrom(db, tenant, s, now).chats
            && TenantClosed(db, tenant, now, name).chats[k] == (if c.activeTenant == Some(tenant) then closed else c)
            && StoreDisconnectedFrom(db, tenant, s, now).chats[k] ==
                 (if c.activeTenant == Some(tenant) && c.activeStore == Some(s) then closed else c)
  {
  }

  // Several erasures in a row

  lemma UserErasedStays(a: Database, b: Database, c: Database, u: UserId, more: set<Member>)
    requires SameSubjects(a, b)
    ensures UserErased(b, u, more) <==> UserErased(a, u, more)
  {
    forall x
      ensures Shared(b, x) <==> Shared(a, x)
    {
      SharedSame(a, b, x);
    }
  }

  lemma PeopleKeptTrans(a: Database, b: Database, c: Database, first: set<Member>, second: set<Member>)
    requires PeopleKept(a, b, first) && PeopleKept(b, c, second)
    ensures PeopleKept(a, c, first + second)
  {
    var both := first + second;
    forall u
      ensures UserErased(a, u, first) || UserErased(b, u, second) ==> UserErased(a, u, both)
    {
      UserErasedStays(a, b, c, u, second);
    }
  }

  lemma ChatTouchedMore(a: Database, b: Database, c: Chat, first: Scope, second: Scope, both: Scope)
    requires SameSubjects(a, b)
    requires both == Scope(first.members + second.members, first.tenants + second.tenants, first.stores + second.stores)
    ensures ChatTouched(a, c, first) || ChatTouched(b, c, second) ==> ChatTouched(a, c, both)
  {
    forall x
      ensures Shared(b, x) <==> Shared(a, x)
    {
      SharedSame(a, b, x);
    }
  }

  function Joined(first: Scope, second: Scope): Scope {
    Scope(first.members + second.members, first.tenants + second.tenants, first.stores + second.stores)
  }

  lemma RowsKeptTrans(a: Database, b: Database, c: Database, first: Scope, second: Scope)
    requires SameSubjects(a, b) && RowsKept(a, b, first) && RowsKept(b, c, second)
    ensures RowsKept(a, c, Joined(first, second))
  {
    forall k | k in a.chats && !ChatTouched(a, a.chats[k], Joined(first, second))
      ensures c.chats[k] == a.chats[k]
    {
      ChatTouchedMore(a, b, a.chats[k], first, second, Joined(first, second));
    }
  }

  lemma KeptTrans(a: Database, b: Database, c: Database, first: Scope, second: Scope, both: Scope)
    requires Confined(a, b, first) && Confined(b, c, second) && both == Joined(first, second)
    ensures Confined(a, c, both)
  {
    PeopleKeptTrans(a, b, c, first.members, second.members);
    RowsKeptTrans(a, b, c, first, second);
  }

  lemma KeptMore(a: Database, b: Database, scope: Scope, more: Scope)
    requires Confined(a, b, scope)
    requires scope.members <= more.members && scope.tenants <= more.tenants && scope.stores <= more.stores
    ensures Confined(a, b, more)
  {
    forall u
      ensures UserErased(a, u, scope.members) ==> UserErased(a, u, more.members)
    {
    }
    forall k | k in a.chats && !ChatTouched(a, a.chats[k], more)
      ensures !ChatTouched(a, a.chats[k], scope)
    {
    }
  }

  lemma KeptSame(db: Database, scope: Scope)
    ensures Confined(db, db, scope)
  {
  }

  function MembersOf(log: set<Erasure>): set<Member> {
    set x | x in log :: x.member
  }

  lemma OneMore(log: set<Erasure>, m: Member, now: int)
    ensures Joined(Scope(MembersOf(log), {}, {}), Scope({m}, {}, {})) ==
              Scope(MembersOf(log + {Erasure(m, now)}), {}, {})
  {
    assert Erasure(m, now) in log + {Erasure(m, now)};
    assert MembersOf(log + {Erasure(m, now)}) == MembersOf(log) + {m};
  }

  lemma IdentityKeeps(start: Database, db: Database, log: set<Erasure>, m: Member, now: int, randoms: Randoms)
    requires m in db.members && m.user in db.users && Confined(start, db, Scope(MembersOf(log), {}, {}))
    ensures Confined(start, IdentityErasedFrom(db, m, now, randoms), Scope(MembersOf(log + {Erasure(m, now)}), {}, {}))
  {
    ErasureScope(db, m, now, randoms);
    OneMore(log, m, now);
    KeptTrans(start, db, IdentityErasedFrom(db, m, now, randoms), Scope(MembersOf(log), {}, {}), Scope({m}, {}, {}),
              Scope(MembersOf(log + {Erasure(m, now)}), {}, {}));
  }

  lemma MemberTurnKeeps(start: Database, db: Database, log: set<Erasure>, m: Member, now: int, randoms: Randoms)
    requires Confined(start, db, Scope(MembersOf(log), {}, {}))
    ensures Confined(start, MemberTurn(db, m, now, randoms), Scope(MembersOf(Logged(log, db, m, now)), {}, {}))
  {
    if !Skips(db, m) {
      IdentityKeeps(start, db, log, m, now, randoms);
    }
  }

  lemma LoopKeeps(db: Database, tenant: TenantId, users: seq<UserId>, n: nat, now: int, randoms: Randoms)
    requires n <= |users|
    ensures Confined(db, MembersErasedFrom(db, tenant, users, n, now, randoms),
                 Scope(MembersOf(LoopErasures(db, tenant, users, n, now, randoms)), {}, {}))
  {
    var inv := (i: nat, d: Database, log: set<Erasure>) => Confined(db, d, Scope(MembersOf(log), {}, {}));
    KeptSame(db, Scope(MembersOf({}), {}, {}));
    forall i: nat, d, log | i < n && inv(i, d, log)
      ensures inv(i + 1, MemberTurn(d, Member(tenant, users[i]), now, randoms),
                  Logged(log, d, Member(tenant, users[i]), now))
    {
      MemberTurnKeeps(db, d, log, Member(tenant, users[i]), now, randoms);
    }
    LoopInduction(db, tenant, users, n, now, randoms, inv);
  }

  lemma ClosingKeeps(db: Database, tenant: TenantId, now: int, name: Digest<Name>)
    requires tenant in db.tenants
    ensures Confined(db, TenantClosed(db, tenant, now, name), Scope({}, {tenant}, {}))
  {
  }

  /** Erasing a tenant touches nothing but the tenant, the chats in use for it, and what is of the members it erases. */
  lemma TenantErasureKeeps(db: Database, tenant: TenantId, name: Digest<Name>, users: seq<UserId>, now: int,
                           randoms: Randoms)
    requires EraseTenant(db, tenant, name, users, now, randoms).Some?
    ensures Confined(db, EraseTenant(db, tenant, name, users, now, randoms).value,
                 Scope(MembersOf(LoopErasures(db, tenant, users, |users|, now, randoms)), {tenant}, {}))
  {
    var members := MembersOf(LoopErasures(db, tenant, users, |users|, now, randoms));
    var erased := MembersErasedFrom(db, tenant, users, |users|, now, randoms);
    LoopKeeps(db, tenant, users, |users|, now, randoms);
    ClosingJoins(db, erased, members, tenant, now, name);
  }

  lemma ClosingJoins(start: Database, db: Database, members: set<Member>, tenant: TenantId, now: int,
                     name: Digest<Name>)
    requires tenant in db.tenants && Confined(start, db, Scope(members, {}, {}))
    ensures Confined(start, TenantClosed(db, tenant, now, name), Scope(members, {tenant}, {}))
  {
    ClosingKeeps(db, tenant, now, name);
    KeptTrans(start, db, TenantClosed(db, tenant, now, name), Scope(members, {}, {}), Scope({}, {tenant}, {}),
              Scope(members, {tenant}, {}));
  }

  lemma DisconnectKeeps(db: Database, tenant: TenantId, s: StoreId, now: int)
    requires s in db.stores
    ensures Confined(db, StoreDisconnectedFrom(db, tenant, s, now), Scope({}, {}, {s}))
  {
  }

  lemma WipeKeeps(db: Database, tenant: TenantId, s: StoreId)
    requires s in db.stores
    ensures Confined(db, StoreWipedFrom(db, tenant, s), Scope({}, {}, {s}))
  {
  }

  /** Disconnecting and erasing a store touches nothing but the store and what is of it. */
  lemma StoreErasureKeeps(db: Database, tenant: TenantId, s: StoreId, now: int)
    requires s in db.stores
    ensures Confined(db, StoreErasedFrom(db, tenant, s, now), Scope({}, {}, {s}))
  {
    DisconnectKeeps(db, tenant, s, now);
    WipeKeeps(StoreDisconnectedFrom(db, tenant, s, now), tenant, s);
    KeptTrans(db, StoreDisconnectedFrom(db, tenant, s, now), StoreErasedFrom(db, tenant, s, now), Scope({}, {}, {s}),
              Scope({}, {}, {s}), Scope({}, {}, {s}));
  }

  /** Afterwards no text of its notes and searches is left, and it neither answers to its address nor is in any use. */
  lemma StoreErasureCleans(db: Database, tenant: TenantId, s: StoreId, now: int)
    requires s in db.stores
    ensures var after := StoreErasedFrom(db, tenant, s, now);
            && after.stores[s] == Store(db.stores[s].tenant, ErasedUrl(s), true, Some(now))
            && (forall k | k in after.chats && after.chats[k].activeStore == Some(s) ::
                  after.chats[k].activeTenant != Some(tenant))
            && (forall k | k in after.refs && after.refs[k].tenant == tenant && after.refs[k].store == s ::
                  && (after.refs[k].kind == Callback ==>
                        after.refs[k].noteBody == None && after.refs[k].noteFingerprint == None)
                  && (after.refs[k].kind == Search ==> after.refs[k].query == None))
            && (forall k | k in db.refs ::
                  && after.refs[k] ==
                       db.refs[k].(noteBody := after.refs[k].noteBody, noteFingerprint := after.refs[k].noteFingerprint,
                                   query := after.refs[k].query)
                  && (db.refs[k].kind != Callback ==>
                        after.refs[k].noteBody == db.refs[k].noteBody
                        && after.refs[k].noteFingerprint == db.refs[k].noteFingerprint)
                  && (db.refs[k].kind != Search ==> after.refs[k].query == db.refs[k].query))
            && (forall k | k in after.noteActions && after.noteActions[k].tenant == tenant
                           && after.noteActions[k].store == s ::
                  after.noteActions[k].fingerprint == Zeros && after.noteActions[k].result == None)
            && (forall k | k in after.statusWrites && after.statusWrites[k].tenant == tenant
                           && after.statusWrites[k].store == s ::
                  after.statusWrites[k].result == None)
  {
  }

  // What the checks promise

  /** A complete erasure leaves nothing that identifies or reaches the person through this tenant. */
  lemma CompleteMeans(db: Database, m: Member, email: Option<Digest<Email>>)
    requires IdentityComplete(db, m, email)
    ensures m in db.members && m.user in db.users && db.members[m] != None
    ensures exists a :: a in db.audits && a.IdentityErased? && a.member == m && Some(a.erasedAt) == db.members[m]
    ensures email != None ==>
              IdentityErased(m, db.members[m].value, email.value, Shared(db, m)) in db.audits
    ensures forall k | k in db.recipients :: db.recipients[k] != m
    ensures forall k | k in db.refs && db.refs[k].tenant == m.tenant && db.refs[k].kind == Settings
                       && db.refs[k].target == Some(m) ::
              db.refs[k].expiresAt <= db.members[m].value
    ensures m.user in db.accounts ==>
              forall k | k in db.refs && db.refs[k].tenant == m.tenant && db.refs[k].account == m.user ::
                && db.refs[k].telegramChat < 0 && db.refs[k].expiresAt <= db.members[m].value
                && (db.refs[k].kind == Callback ==> db.refs[k].noteBody == None && db.refs[k].noteFingerprint == None)
                && (db.refs[k].kind == Search ==> db.refs[k].query == None)
    ensures m.user in db.accounts ==>
              && (forall k | k in db.noteActions && db.noteActions[k].tenant == m.tenant
                             && db.noteActions[k].account == m.user ::
                    db.noteActions[k].fingerprint == Zeros && db.noteActions[k].result == None)
              && (forall k | k in db.statusWrites && db.statusWrites[k].tenant == m.tenant
                             && db.statusWrites[k].account == m.user ::
                    db.statusWrites[k].result == None)
              && (forall k | k in db.deliveries && db.deliveries[k].tenant == m.tenant
                             && db.deliveries[k].account == m.user ::
                    && db.deliveries[k].messageId == None
                    && db.deliveries[k].state in {Delivered, TerminalFailure, Ambiguous})
    ensures (exists other :: other in db.members && other.user == m.user && other != m) ==>
              && (email != None ==> Hash(db.users[m.user].email) == email.value)
              && (m.user in db.accounts ==>
                    forall k | k in db.chats && db.chats[k].account == m.user ::
                      db.chats[k].activeTenant != Some(m.tenant))
    ensures !(exists other :: other in db.members && other.user == m.user && other != m) ==>
              && db.users[m.user] == User(ErasedEmail(m.user), None, None)
              && (forall k | k in db.linkTokens :: db.linkTokens[k] != m.user)
              && (m.user in db.accounts ==>
                    && db.accounts[m.user].deletedAt != None && db.accounts[m.user].telegramUser < 0
                    && db.accounts[m.user].lastRedeem == None && db.accounts[m.user].lastUnlink == None
                    && forall k | k in db.chats && db.chats[k].account == m.user ::
                         && db.chats[k].telegramChat < 0 && db.chats[k].revokedAt != None
                         && db.chats[k].activeTenant == None && db.chats[k].activeStore == None)
  {
    var d := db.members[m].value;
    assert Audited(db, m, d, email);
    forall k | k in db.refs
      ensures TargetExpired(db.refs[k], m, d) && (m.user in db.accounts ==> RefClean(db.refs[k], m, d))
    {
    }
  }

  /** And a completely erased tenant is closed, with its stores, its chats and every member. */
  lemma TenantCompleteMeans(db: Database, tenant: TenantId, name: Digest<Name>)
    requires TenantComplete(db, tenant, name)
    ensures tenant in db.tenants && db.tenants[tenant].name == ErasedName(tenant) && db.tenants[tenant].suspended
    ensures db.tenants[tenant].deletedAt != None
    ensures TenantErased(tenant, db.tenants[tenant].deletedAt.value, name) in db.audits
    ensures forall s | s in db.stores && db.stores[s].tenant == tenant ::
              db.stores[s].disconnected && db.stores[s].deletedAt != None && db.stores[s].url == ErasedUrl(s)
    ensures forall m | m in db.members && m.tenant == tenant :: IdentityComplete(db, m, None)
    ensures forall k | k in db.chats :: db.chats[k].activeTenant != Some(tenant)
  {
  }
}

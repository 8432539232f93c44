/** Linking Telegram identities to users with one-time tokens, and unlinking them. */
module Linking {
  import opened Wrappers

  type UserId = nat
  type AccountId = nat
  type TelegramId = int
  type ChatId = int
  type TokenHash = nat

  datatype Token = Token(user: UserId, expiresAt: int, consumedAt: Option<int>)

  datatype Account = Account(user: UserId, telegramUser: TelegramId, deletedAt: Option<int>, lastRedeem: Option<int>,
                             lastUnlink: Option<int>)

  datatype Chat = Chat(account: AccountId, revokedAt: Option<int>, active: Option<(nat, nat)>)

  /** What `resolveContext` finds for a user: one active tenant and store, a suspended tenant, or neither. */
  datatype Context = Active(tenant: nat, store: nat) | EntitlementInactive | NoContext

  datatype RedeemResult = Linked | InvalidToken | InactiveEntitlement

  datatype UnlinkResult = Unlinked | Unauthorized

  datatype Redemption = Redemption(token: TokenHash, telegramUser: TelegramId, chat: ChatId, updateId: int)

  /** `redeemer` is the user whose token last opened the chat, `links` the tokens in the order they were consumed. */
  datatype State = State(
    tokens: map<TokenHash, Token>,
    accounts: map<AccountId, Account>,
    chats: map<ChatId, Chat>,
    redeemer: map<ChatId, UserId>,
    links: seq<TokenHash>
  )

  const EMPTY := State(map[], map[], map[], map[], [])

  // Lookups by unique keys

  ghost function ByTelegramUser(s: State, t: TelegramId): (r: Option<AccountId>)
    ensures r.Some? ==> r.value in s.accounts && s.accounts[r.value].telegramUser == t
    ensures r.None? ==> forall a | a in s.accounts :: s.accounts[a].telegramUser != t
  {
    if exists a :: a in s.accounts && s.accounts[a].telegramUser == t then
      var a :| a in s.accounts && s.accounts[a].telegramUser == t; Some(a)
    else None
  }

  ghost function ByUser(s: State, u: UserId): (r: Option<AccountId>)
    ensures r.Some? ==> r.value in s.accounts && s.accounts[r.value].user == u
    ensures r.None? ==> forall a | a in s.accounts :: s.accounts[a].user != u
  {
    if exists a :: a in s.accounts && s.accounts[a].user == u then
      var a :| a in s.accounts && s.accounts[a].user == u; Some(a)
    else None
  }

  /** The identities in the request contradict what is stored. */
  predicate Conflict(s: State, user: UserId, telegramUser: TelegramId, byTelegram: Option<AccountId>,
                     byUser: Option<AccountId>)
    requires byTelegram.Some? ==> byTelegram.value in s.accounts
    requires byUser.Some? ==> byUser.value in s.accounts
  {
    var reassignable := byTelegram.Some? && s.accounts[byTelegram.value].deletedAt.Some? && byUser.None?;
    || (byTelegram.Some? && byUser.Some? && byTelegram != byUser)
    || (byTelegram.Some? && s.accounts[byTelegram.value].user != user && !reassignable)
    || (byUser.Some? && s.accounts[byUser.value].telegramUser != telegramUser)
  }

  /** The same redemption has been carried out and still stands. */
  predicate AlreadyLinked(s: State, r: Redemption, user: UserId, existing: Option<AccountId>)
    requires existing.Some? ==> existing.value in s.accounts
  {
    && existing.Some?
    && s.accounts[existing.value].telegramUser == r.telegramUser && s.accounts[existing.value].user == user
    && s.accounts[existing.value].lastRedeem == Some(r.updateId) && s.accounts[existing.value].deletedAt.None?
    && r.chat in s.chats && s.chats[r.chat].account == existing.value && s.chats[r.chat].revokedAt.None?
  }

  /** The state after a redemption that succeeds. */
  function LinkedState(s: State, r: Redemption, existing: Option<AccountId>, newId: AccountId, now: int, tenant: nat,
                       store: nat): State
    requires r.token in s.tokens && (existing.Some? ==> existing.value in s.accounts)
  {
    var token := s.tokens[r.token];
    var id := if existing.Some? then existing.value else newId;
    var account :=
      if existing.Some? then s.accounts[id].(telegramUser := r.telegramUser, user := token.user, deletedAt := None,
                                             lastRedeem := Some(r.updateId))
      else Account(token.user, r.telegramUser, None, Some(r.updateId), None);
    State(
      s.tokens[r.token := token.(consumedAt := Some(now))],
      s.accounts[id := account],
      s.chats[r.chat := Chat(id, None, Some((tenant, store)))],
      s.redeemer[r.chat := token.user],
      s.links + [r.token])
  }

  /** `redeemInTransaction`; `newId` is the id a new account would get. */
  ghost function Redeem(s: State, r: Redemption, newId: AccountId, now: int, context: Context): (State, RedeemResult) {
    if r.token !in s.tokens then (s, InvalidToken)
    else
      var token := s.tokens[r.token];
      var byTelegram, byUser := ByTelegramUser(s, r.telegramUser), ByUser(s, token.user);
      var existing := if byUser.Some? then byUser else byTelegram;
      if Conflict(s, token.user, r.telegramUser, byTelegram, byUser) then (s, InvalidToken)
      else if token.consumedAt.Some? && AlreadyLinked(s, r, token.user, existing) then (s, Linked)
      else if token.consumedAt.Some? || token.expiresAt <= now then (s, InvalidToken)
      else if context.EntitlementInactive? then (s, InactiveEntitlement)
      else if context.NoContext? then (s, InvalidToken)
      else if r.chat in s.chats && Some(s.chats[r.chat].account) != existing then (s, InvalidToken)
      else (LinkedState(s, r, existing, newId, now, context.tenant, context.store), Linked)
  }

  function RevokedChats(s: State, account: AccountId, now: int): map<ChatId, Chat> {
    map c | c in s.chats ::
      if s.chats[c].account == account && s.chats[c].revokedAt.None? then
        s.chats[c].(revokedAt := Some(now), active := None)
      else s.chats[c]
  }

  predicate OwnsChat(s: State, account: AccountId, chat: ChatId) {
    chat in s.chats && s.chats[chat].account == account
  }

  function UnlinkedState(s: State, account: AccountId, updateId: int, now: int): State
    requires account in s.accounts
  {
    s.(chats := RevokedChats(s, account, now),
       accounts := s.accounts[account := s.accounts[account].(deletedAt := Some(now), lastUnlink := Some(updateId))])
  }

  ghost function Unlink(s: State, telegramUser: TelegramId, chat: ChatId, updateId: int, now: int):
      (State, UnlinkResult)
  {
    var id := ByTelegramUser(s, telegramUser);
    if id.None? then (s, Unauthorized)
    else
      var a := s.accounts[id.value];
      if a.lastUnlink == Some(updateId) && a.deletedAt.Some? && OwnsChat(s, id.value, chat) then (s, Unlinked)
      else if a.deletedAt.Some? || !OwnsChat(s, id.value, chat) then (s, Unauthorized)
      else (UnlinkedState(s, id.value, updateId, now), Unlinked)
  }

  // Every sequence of transactions

  /** `RevokeChats` stands for store disconnects and for erasures, which revoke some chats. */
  datatype Action =
    | IssueToken(token: TokenHash, user: UserId, expiresAt: int)
    | RedeemToken(redemption: Redemption, newId: AccountId, now: int, context: Context)
    | UnlinkAccount(telegramUser: TelegramId, chat: ChatId, updateId: int, now: int)
    | RevokeChats(revoked: set<ChatId>, now: int)

  predicate Enabled(s: State, a: Action) {
    && (a.IssueToken? ==> a.token !in s.tokens)
    && (a.RedeemToken? ==> a.newId !in s.accounts)
  }

  ghost function Step(s: State, a: Action): State {
    if !Enabled(s, a) then s
    else match a
      case IssueToken(token, user, expiresAt) => s.(tokens := s.tokens[token := Token(user, expiresAt, None)])
      case RedeemToken(r, newId, now, context) => Redeem(s, r, newId, now, context).0
      case UnlinkAccount(telegramUser, chat, updateId, now) => Unlink(s, telegramUser, chat, updateId, now).0
      case RevokeChats(revoked, now) =>
        s.(chats := map c | c in s.chats ::
             if c in revoked then s.chats[c].(revokedAt := Some(now), active := None) else s.chats[c])
  }

  ghost predicate Unique(s: State) {
    && (forall a, b | a in s.accounts && b in s.accounts
                      && s.accounts[a].telegramUser == s.accounts[b].telegramUser :: a == b)
    && (forall a, b | a in s.accounts && b in s.accounts && s.accounts[a].user == s.accounts[b].user :: a == b)
  }

  /** A deleted account has only revoked chats, and an open chat was last opened by its account's user. */
  predicate ValidChat(s: State, c: ChatId)
    requires c in s.chats
  {
    var chat := s.chats[c];
    && chat.account in s.accounts && c in s.redeemer
    && (chat.revokedAt.None? ==>
          s.accounts[chat.account].deletedAt.None? && s.redeemer[c] == s.accounts[chat.account].user)
    && (chat.revokedAt.Some? ==> chat.active.None?)
  }

  ghost predicate Inv(s: State) {
    && Unique(s)
    && (forall c | c in s.chats :: ValidChat(s, c))
    && (forall i | 0 <= i < |s.links| :: s.links[i] in s.tokens && s.tokens[s.links[i]].consumedAt.Some?)
    && (forall i, j | 0 <= i < j < |s.links| :: s.links[i] != s.links[j])
    && (forall t | t in s.tokens && s.tokens[t].consumedAt.Some? :: t in s.links)
  }

  lemma RedeemKeepsInv(s: State, r: Redemption, newId: AccountId, now: int, context: Context)
    requires Inv(s) && newId !in s.accounts
    ensures Inv(Redeem(s, r, newId, now, context).0)
  {
  }

  lemma StepKeepsInv(s: State, a: Action)
    requires Inv(s)
    ensures Inv(Step(s, a))
  {
    if a.RedeemToken? && Enabled(s, a) {
      RedeemKeepsInv(s, a.redemption, a.newId, a.now, a.context);
    }
  }

  ghost function Run(s: State, actions: seq<Action>): State
    decreases |actions|
  {
    if actions == [] then s else Run(Step(s, actions[0]), actions[1..])
  }

  lemma {:induction false} RunKeepsInv(s: State, actions: seq<Action>)
    requires Inv(s)
    ensures Inv(Run(s, actions))
    decreases |actions|
  {
    if actions != [] {
      StepKeepsInv(s, actions[0]);
      RunKeepsInv(Step(s, actions[0]), actions[1..]);
    }
  }

  /**
   In every reachable state deleted accounts have only revoked chats, and open chats belong to their last redeemer.
  */
  lemma OpenChats(actions: seq<Action>, c: ChatId)
    requires c in Run(EMPTY, actions).chats
    ensures var s := Run(EMPTY, actions);
            && s.chats[c].account in s.accounts && c in s.redeemer
            && (s.accounts[s.chats[c].account].deletedAt.Some? ==> s.chats[c].revokedAt.Some?)
            && (s.chats[c].revokedAt.None? ==> s.redeemer[c] == s.accounts[s.chats[c].account].user)
  {
    RunKeepsInv(EMPTY, actions);
    assert ValidChat(Run(EMPTY, actions), c);
  }

  /** Each token is consumed at most once. */
  lemma ConsumedOnce(actions: seq<Action>, i: nat, j: nat)
    requires i < |Run(EMPTY, actions).links| && j < |Run(EMPTY, actions).links|
    requires Run(EMPTY, actions).links[i] == Run(EMPTY, actions).links[j]
    ensures i == j
  {
    RunKeepsInv(EMPTY, actions);
  }

  /** The user behind a Telegram identity. */
  ghost function UserOf(s: State, t: TelegramId): Option<UserId> {
    var a := ByTelegramUser(s, t);
    if a.Some? then Some(s.accounts[a.value].user) else None
  }

  lemma MovedAccount(s: State, a: Action, id: AccountId)
    requires Inv(s) && id in s.accounts
    ensures id in Step(s, a).accounts && Step(s, a).accounts[id].telegramUser == s.accounts[id].telegramUser
    ensures Step(s, a).accounts[id].user != s.accounts[id].user ==> s.accounts[id].deletedAt.Some?
  {
  }

  /** A Telegram identity moves to another user only when it is unlinked, and then none of its chats is open. */
  lemma IdentityMovesWhenUnlinked(s: State, a: Action, t: TelegramId)
    requires Inv(s) && UserOf(s, t).Some? && UserOf(Step(s, a), t) != UserOf(s, t)
    ensures var id := ByTelegramUser(s, t).value;
            && s.accounts[id].deletedAt.Some?
            && forall c | c in s.chats && s.chats[c].account == id :: s.chats[c].revokedAt.Some?
  {
    var id := ByTelegramUser(s, t).value;
    StepKeepsInv(s, a);
    MovedAccount(s, a, id);
    assert ByTelegramUser(Step(s, a), t) == Some(id);
    forall c | c in s.chats && s.chats[c].account == id
      ensures s.chats[c].revokedAt.Some?
    {
      assert ValidChat(s, c);
    }
  }

  /** A redemption that succeeds opens the chat for the token's user, on the identity that asked. */
  lemma LinkedOpensChat(s: State, r: Redemption, newId: AccountId, now: int, context: Context)
    requires Inv(s) && newId !in s.accounts && Redeem(s, r, newId, now, context).1.Linked?
    ensures var after := Redeem(s, r, newId, now, context).0;
            && r.token in after.tokens && after.tokens[r.token].consumedAt.Some?
            && r.chat in after.chats && after.chats[r.chat].revokedAt.None?
            && after.chats[r.chat].account in after.accounts
            && after.accounts[after.chats[r.chat].account].user == after.tokens[r.token].user
            && after.accounts[after.chats[r.chat].account].telegramUser == r.telegramUser
            && after.accounts[after.chats[r.chat].account].lastRedeem == Some(r.updateId)
  {
  }

  /** Redeeming again with the same update answers the same and changes nothing, at any later time. */
  lemma RedeemIsRepeatable(s: State, r: Redemption, newId: AccountId, now: int, context: Context, againId: AccountId,
                           later: int, laterContext: Context)
    requires Inv(s) && newId !in s.accounts && Redeem(s, r, newId, now, context).1.Linked?
    ensures var after := Redeem(s, r, newId, now, context).0;
            Redeem(after, r, againId, later, laterContext) == (after, Linked)
  {
    var after := Redeem(s, r, newId, now, context).0;
    LinkedOpensChat(s, r, newId, now, context);
    RedeemKeepsInv(s, r, newId, now, context);
    var id := after.chats[r.chat].account;
    assert ByTelegramUser(after, r.telegramUser) == Some(id) && ByUser(after, after.tokens[r.token].user) == Some(id);
  }

  /** Unlinking closes every chat of the account, and repeating the same update changes nothing. */
  lemma UnlinkClosesChats(s: State, t: TelegramId, chat: ChatId, updateId: int, now: int, later: int)
    requires Inv(s) && Unlink(s, t, chat, updateId, now).1.Unlinked?
    ensures var after := Unlink(s, t, chat, updateId, now).0;
            && (forall c | c in after.chats && after.chats[c].account == after.chats[chat].account ::
                  after.chats[c].revokedAt.Some?)
            && Unlink(after, t, chat, updateId, later) == (after, Unlinked)
  {
    var after := Unlink(s, t, chat, updateId, now).0;
    StepKeepsInv(s, UnlinkAccount(t, chat, updateId, now));
    var id := ByTelegramUser(s, t).value;
    assert after.accounts[id].telegramUser == t && ByTelegramUser(after, t) == Some(id);
    forall c | c in after.chats && after.chats[c].account == id
      ensures after.chats[c].revokedAt.Some?
    {
      assert ValidChat(after, c);
    }
  }

  // What is refused and what takes effect

  /**
   Neither the user nor the Telegram identity is linked otherwise; an unlinked identity may get a user without
   account.
  */
  predicate MayLink(s: State, u: UserId, t: TelegramId) {
    && (forall a | a in s.accounts && s.accounts[a].user == u :: s.accounts[a].telegramUser == t)
    && (forall a | a in s.accounts && s.accounts[a].telegramUser == t && s.accounts[a].user != u ::
          s.accounts[a].deletedAt != None && forall b | b in s.accounts :: s.accounts[b].user != u)
  }

  /** The account of the user or of the Telegram identity. */
  predicate AccountOf(s: State, a: AccountId, u: UserId, t: TelegramId) {
    a in s.accounts && (s.accounts[a].user == u || s.accounts[a].telegramUser == t)
  }

  lemma ConflictIff(s: State, u: UserId, t: TelegramId)
    requires Inv(s)
    ensures Conflict(s, u, t, ByTelegramUser(s, t), ByUser(s, u)) <==> !MayLink(s, u, t)
  {
  }

  /**
   A redemption succeeds exactly when the identities do not contradict what is stored and either the token is unused,
   not yet expired, leads to an active store, and the chat is new or already the account's, or the same update has used
   it before and its link still stands.
  */
  lemma RedeemLinksIff(s: State, r: Redemption, newId: AccountId, now: int, context: Context)
    requires Inv(s) && newId !in s.accounts
    ensures var (after, result) := Redeem(s, r, newId, now, context);
            && (result != Linked ==> after == s)
            && (r.token !in s.tokens ==> result == InvalidToken)
            && (r.token in s.tokens ==>
                  var token := s.tokens[r.token];
                  var usable :=
                    MayLink(s, token.user, r.telegramUser) && token.consumedAt == None && now < token.expiresAt;
                  var again :=
                    && MayLink(s, token.user, r.telegramUser) && token.consumedAt != None && r.chat in s.chats
                    && s.chats[r.chat].revokedAt == None && s.chats[r.chat].account in s.accounts
                    && var account := s.accounts[s.chats[r.chat].account];
                       && account.user == token.user && account.telegramUser == r.telegramUser
                       && account.lastRedeem == Some(r.updateId) && account.deletedAt == None;
                  && (result == Linked <==>
                        || again
                        || (usable && context.Active?
                            && (r.chat in s.chats ==>
                                  AccountOf(s, s.chats[r.chat].account, token.user, r.telegramUser))))
                  && (result == InactiveEntitlement <==> usable && context.EntitlementInactive?)
                  && (again ==> after == s))
  {
    if r.token in s.tokens {
      ConflictIff(s, s.tokens[r.token].user, r.telegramUser);
    }
  }

  /** What a redemption that uses its token writes, and that it leaves everything else. */
  lemma RedeemWrites(s: State, r: Redemption, newId: AccountId, now: int, context: Context)
    requires Inv(s) && newId !in s.accounts && Redeem(s, r, newId, now, context).1 == Linked
    requires r.token in s.tokens && s.tokens[r.token].consumedAt == None
    ensures var after, token := Redeem(s, r, newId, now, context).0, s.tokens[r.token];
            && after.tokens == s.tokens[r.token := Token(token.user, token.expiresAt, Some(now))]
            && r.chat in after.chats && after.chats[r.chat].account in after.accounts && context.Active?
            && var id := after.chats[r.chat].account;
               && (AccountOf(s, id, token.user, r.telegramUser) || id == newId)
               && (id == newId ==> forall a | a in s.accounts :: !AccountOf(s, a, token.user, r.telegramUser))
               && after.chats == s.chats[r.chat := Chat(id, None, Some((context.tenant, context.store)))]
               && after.accounts == s.accounts[id := after.accounts[id]]
               && after.accounts[id] ==
                    Account(token.user, r.telegramUser, None, Some(r.updateId),
                            if id in s.accounts then s.accounts[id].lastUnlink else None)
               && after.links == s.links + [r.token]
  {
    LinkedOpensChat(s, r, newId, now, context);
  }

  /** Unlinking succeeds exactly from a chat of the identity's own account, once, or again with the same update. */
  lemma UnlinkIff(s: State, t: TelegramId, chat: ChatId, updateId: int, now: int)
    requires Inv(s)
    ensures var (after, result) := Unlink(s, t, chat, updateId, now);
            && (result == Unlinked <==>
                  && chat in s.chats && s.chats[chat].account in s.accounts
                  && var account := s.accounts[s.chats[chat].account];
                     account.telegramUser == t && (account.deletedAt == None || account.lastUnlink == Some(updateId)))
            && (result != Unlinked ==> after == s)
            && (result == Unlinked ==>
                  var id := s.chats[chat].account;
                  && id in s.accounts && (s.accounts[id].deletedAt != None ==> after == s)
                  && (s.accounts[id].deletedAt == None ==>
                        && after.tokens == s.tokens && after.links == s.links
                        && after.accounts ==
                             s.accounts[id := s.accounts[id].(deletedAt := Some(now), lastUnlink := Some(updateId))]
                        && after.chats.Keys == s.chats.Keys
                        && forall c | c in s.chats ::
                             after.chats[c] == if s.chats[c].account == id && s.chats[c].revokedAt == None
                                               then Chat(id, Some(now), None) else s.chats[c]))
  {
    var id := ByTelegramUser(s, t);
    if chat in s.chats && s.chats[chat].account in s.accounts && s.accounts[s.chats[chat].account].telegramUser == t {
      assert id == Some(s.chats[chat].account);
    }
    if OwnsChat(s, if id.Some? then id.value else 0, chat) {
      assert ValidChat(s, chat);
    }
  }

  /** The service's transactions on the token, account and chat tables. */
  class LinkTables {
    var tokens: map<TokenHash, Token>
    var accounts: map<AccountId, Account>
    var chats: map<ChatId, Chat>
    ghost var redeemer: map<ChatId, UserId>
    ghost var links: seq<TokenHash>

    ghost function View(): State
      reads this
    {
      State(tokens, accounts, chats, redeemer, links)
    }

    constructor ()
      ensures View() == EMPTY
    {
      tokens, accounts, chats, redeemer, links := map[], map[], map[], map[], [];
    }

    method FindByTelegramUser(t: TelegramId) returns (r: Option<AccountId>)
      requires Unique(View())
      ensures r == ByTelegramUser(View(), t)
    {
      if a :| a in accounts && accounts[a].telegramUser == t {
        r := Some(a);
      } else {
        r := None;
      }
    }

    method FindByUser(u: UserId) returns (r: Option<AccountId>)
      requires Unique(View())
      ensures r == ByUser(View(), u)
    {
      if a :| a in accounts && accounts[a].user == u {
        r := Some(a);
      } else {
        r := None;
      }
    }

    method RedeemInTransaction(r: Redemption, newId: AccountId, now: int, context: Context)
      returns (result: RedeemResult)
      requires Inv(View()) && newId !in accounts
      modifies this
      ensures (View(), result) == Redeem(old(View()), r, newId, now, context) && Inv(View())
    {
      RedeemKeepsInv(View(), r, newId, now, context);
      if r.token !in tokens {
        return InvalidToken;
      }
      var token := tokens[r.token];
      var byTelegram := FindByTelegramUser(r.telegramUser);
      var byUser := FindByUser(token.user);
      var reassignable := byTelegram.Some? && accounts[byTelegram.value].deletedAt.Some? && byUser.None?;
      var telegramConflict := byTelegram.Some? && accounts[byTelegram.value].user != token.user && !reassignable;
      var saasConflict := byUser.Some? && accounts[byUser.value].telegramUser != r.telegramUser;
      if (byTelegram.Some? && byUser.Some? && byTelegram != byUser) || telegramConflict || saasConflict {
        return InvalidToken;
      }
      var existing := if byUser.Some? then byUser else byTelegram;
      if token.consumedAt.Some? && existing.Some? {
        var a := accounts[existing.value];
        if a.telegramUser == r.telegramUser && a.user == token.user && a.lastRedeem == Some(r.updateId)
           && a.deletedAt.None? {
          if r.chat in chats && chats[r.chat].account == existing.value && chats[r.chat].revokedAt.None? {
            return Linked;
          }
        }
      }
      if token.consumedAt.Some? || token.expiresAt <= now {
        return InvalidToken;
      }
      if context.EntitlementInactive? {
        return InactiveEntitlement;
      }
      if context.NoContext? {
        return InvalidToken;
      }
      if r.chat in chats && (existing.None? || chats[r.chat].account != existing.value) {
        return InvalidToken;
      }
      tokens := tokens[r.token := Token(token.user, token.expiresAt, Some(now))];
      var id := newId;
      if existing.Some? {
        id := existing.value;
        accounts := accounts[id := Account(token.user, r.telegramUser, None, Some(r.updateId),
                                           accounts[id].lastUnlink)];
      } else {
        accounts := accounts[id := Account(token.user, r.telegramUser, None, Some(r.updateId), None)];
      }
      chats := chats[r.chat := Chat(id, None, Some((context.tenant, context.store)))];
      redeemer := redeemer[r.chat := token.user];
      links := links + [r.token];
      result := Linked;
    }

    method UnlinkAccount(telegramUser: TelegramId, chat: ChatId, updateId: int, now: int) returns (result: UnlinkResult)
      requires Inv(View())
      modifies this
      ensures (View(), result) == Unlink(old(View()), telegramUser, chat, updateId, now) && Inv(View())
    {
      StepKeepsInv(View(), Action.UnlinkAccount(telegramUser, chat, updateId, now));
      var id := FindByTelegramUser(telegramUser);
      if id.None? {
        return Unauthorized;
      }
      var account := accounts[id.value];
      var identityMatches := chat in chats && chats[chat].account == id.value;
      if account.lastUnlink == Some(updateId) && account.deletedAt.Some? && identityMatches {
        return Unlinked;
      }
      if account.deletedAt.Some? || !identityMatches {
        return Unauthorized;
      }
      chats := map c | c in chats ::
        if chats[c].account == id.value && chats[c].revokedAt.None? then Chat(id.value, Some(now), None) else chats[c];
      assert chats == RevokedChats(old(View()), id.value, now);
      accounts := accounts[id.value := account.(deletedAt := Some(now), lastUnlink := Some(updateId))];
      result := Unlinked;
    }
  }
}

/**
 Bounded stores of expiring single-use bearer tokens (nfc/sessions.py, ExpiringTokenStore).

 A Python dict remembers the order in which its keys were inserted; an entry carries its place in
 that order. Random tokens are fresh: no token is issued twice.
 */
module Sessions {
  import opened Results

  type Token = nat

  datatype Entry<+T> = Entry(value: T, expiresAt: int, order: nat)

  type Items<+T> = map<Token, Entry<T>>

  datatype Store<+T> = Store(items: Items<T>, next: nat)

  datatype Limits = Limits(ttl: int, maxItems: nat)

  predicate Positive(c: Limits) {
    c.ttl > 0 && c.maxItems >= 1
  }

  /** What `_expire` leaves. */
  function Live<T>(items: Items<T>, now: int): Items<T> {
    map t | t in items && items[t].expiresAt > now :: items[t]
  }

  /** `min` over the dict: the earliest expiry, and among equals the first inserted. */
  predicate Older<T>(a: Entry<T>, b: Entry<T>) {
    a.expiresAt < b.expiresAt || (a.expiresAt == b.expiresAt && a.order <= b.order)
  }

  predicate IsOldest<T>(items: Items<T>, k: Token) {
    k in items && forall t :: t in items ==> Older(items[k], items[t])
  }

  ghost function Oldest<T>(items: Items<T>): (k: Token)
    requires items != map[]
    ensures IsOldest(items, k)
    decreases |items|
  {
    var t :| t in items;
    var rest := items - {t};
    assert forall u :: u in items && u != t ==> u in rest && rest[u] == items[u];
    if rest == map[] then t
    else
      var k := Oldest(rest);
      if Older(items[t], items[k]) then t else k
  }

  /** The store as `issue` makes room: full stores lose their oldest entry. */
  ghost function Room<T>(c: Limits, live: Items<T>): Items<T>
    requires Positive(c)
  {
    if |live| >= c.maxItems then live - {Oldest(live)} else live
  }

  ghost function Issued<T>(c: Limits, s: Store<T>, now: int, token: Token, value: T): Store<T>
    requires Positive(c)
  {
    Store(Room(c, Live(s.items, now))[token := Entry(value, now + c.ttl, s.next)], s.next + 1)
  }

  /** What `peek` returns, after expiring. */
  function Peeked<T>(s: Store<T>, now: int, token: Token): Option<T> {
    if token in s.items && s.items[token].expiresAt > now then Some(s.items[token].value) else None
  }

  function Consumed<T>(s: Store<T>, now: int, token: Token): Store<T> {
    s.(items := Live(s.items, now) - {token})
  }

  // ----- histories of one store -----

  datatype Use<+T> =
    | Issue(now: int, token: Token, value: T)
    | Peek(now: int, token: Token)
    | Consume(now: int, token: Token)

  ghost function Next<T>(c: Limits, s: Store<T>, u: Use<T>): Store<T>
    requires Positive(c)
  {
    match u
    case Issue(now, token, value) => Issued(c, s, now, token, value)
    case Peek(now, token) => s.(items := Live(s.items, now))
    case Consume(now, token) => Consumed(s, now, token)
  }

  /** A store over time: `stores[n]` is what use `n` finds, `stores[n + 1]` what it leaves. */
  datatype History<T> = History(stores: seq<Store<T>>, uses: seq<Use<T>>)

  ghost predicate StepAt<T>(c: Limits, h: History<T>, n: nat)
    requires Positive(c) && n < |h.uses| && |h.stores| == |h.uses| + 1
  {
    h.stores[n + 1] == Next(c, h.stores[n], h.uses[n])
  }

  ghost predicate Happened<T>(c: Limits, h: History<T>) {
    && Positive(c)
    && |h.stores| == |h.uses| + 1
    && h.stores[0] == Store(map[], 0)
    && forall n :: 0 <= n < |h.uses| ==> StepAt(c, h, n)
  }

  ghost function Then<T>(c: Limits, h: History<T>, u: Use<T>): History<T>
    requires Happened(c, h)
  {
    History(h.stores + [Next(c, h.stores[|h.uses|], u)], h.uses + [u])
  }

  lemma {:induction false} HistoryGrows<T>(c: Limits, h: History<T>, u: Use<T>)
    requires Happened(c, h)
    ensures Happened(c, Then(c, h, u))
  {
    var g := Then(c, h, u);
    forall n | 0 <= n < |g.uses| ensures StepAt(c, g, n) {
      if n < |h.uses| {
        assert StepAt(c, h, n);
        assert g.stores[n + 1] == h.stores[n + 1] && g.stores[n] == h.stores[n] && g.uses[n] == h.uses[n];
      }
    }
  }

  /** What the `n`th use, a peek or a consume, returns. */
  function Answer<T>(h: History<T>, n: nat): Option<T>
    requires n < |h.uses| < |h.stores| && !h.uses[n].Issue?
  {
    Peeked(h.stores[n], h.uses[n].now, h.uses[n].token)
  }

  ghost predicate ClockMonotone<T>(uses: seq<Use<T>>) {
    forall i, j :: 0 <= i <= j < |uses| ==> uses[i].now <= uses[j].now
  }

  ghost predicate FreshTokens<T>(uses: seq<Use<T>>) {
    forall i, j :: 0 <= i < j < |uses| && uses[i].Issue? && uses[j].Issue? ==> uses[i].token != uses[j].token
  }

  // ----- size -----

  lemma {:induction false} KeyLost<T>(a: Items<T>, t: Token)
    requires t in a
    ensures |a - {t}| == |a| - 1
  {
    assert a == (a - {t})[t := a[t]];
  }

  lemma {:induction false} MoreKeys<T>(a: Items<T>, b: Items<T>)
    requires a.Keys <= b.Keys
    ensures |a| <= |b|
    decreases |a|
  {
    if t :| t in a {
      KeyLost(a, t);
      KeyLost(b, t);
      MoreKeys(a - {t}, b - {t});
    }
  }

  lemma {:induction false} KeyGained<T>(a: Items<T>, t: Token, e: Entry<T>)
    ensures |a[t := e]| <= |a| + 1
  {
    if t in a { MoreKeys(a[t := e], a); }
  }

  lemma {:induction false} RoomSize<T>(c: Limits, live: Items<T>)
    requires Positive(c) && |live| <= c.maxItems
    ensures |Room(c, live)| < c.maxItems
  {
    if |live| >= c.maxItems { KeyLost(live, Oldest(live)); }
  }

  lemma {:induction false} NextSize<T>(c: Limits, s: Store<T>, u: Use<T>)
    requires Positive(c) && |s.items| <= c.maxItems
    ensures |Next(c, s, u).items| <= c.maxItems
  {
    var live := Live(s.items, u.now);
    MoreKeys(live, s.items);
    match u
    case Issue(now, token, value) =>
      RoomSize(c, live);
      KeyGained(Room(c, live), token, Entry(value, now + c.ttl, s.next));
    case Peek(_, _) =>
    case Consume(_, token) => MoreKeys(live - {token}, live);
  }

  /** The store's size never exceeds its limit, whatever the clock and the tokens do. */
  lemma {:induction false} NeverOverfull<T>(c: Limits, h: History<T>, n: nat)
    requires Happened(c, h) && n <= |h.uses|
    ensures |h.stores[n].items| <= c.maxItems
  {
    if n > 0 {
      NeverOverfull(c, h, n - 1);
      assert StepAt(c, h, n - 1);
      NextSize(c, h.stores[n - 1], h.uses[n - 1]);
    }
  }

  /** No use leaves an expired entry behind. */
  lemma {:induction false} ExpiredAreDropped<T>(c: Limits, h: History<T>, n: nat, token: Token)
    requires Happened(c, h) && n < |h.uses| && token in h.stores[n + 1].items
    ensures h.stores[n + 1].items[token].expiresAt > h.uses[n].now
  {
    assert StepAt(c, h, n);
  }

  // ----- soundness: a token yields its own value, before its time is up, at most once -----

  /** Issuing adds nothing but the token issued. */
  lemma {:induction false} IssuedMember<T>(c: Limits, s: Store<T>, now: int, token: Token, value: T, t: Token)
    requires Positive(c) && t in Issued(c, s, now, token, value).items
    ensures if t == token then Issued(c, s, now, token, value).items[t] == Entry(value, now + c.ttl, s.next)
            else t in s.items && Issued(c, s, now, token, value).items[t] == s.items[t]
  {
  }

  lemma {:induction false} StepMember<T>(c: Limits, h: History<T>, n: nat, t: Token)
    requires Happened(c, h) && n < |h.uses| && t in h.stores[n + 1].items
    ensures if h.uses[n].Issue? && h.uses[n].token == t
            then h.stores[n + 1].items[t] == Entry(h.uses[n].value, h.uses[n].now + c.ttl, h.stores[n].next)
            else t in h.stores[n].items && h.stores[n + 1].items[t] == h.stores[n].items[t]
    ensures !(h.uses[n].Consume? && h.uses[n].token == t)
  {
    assert StepAt(c, h, n);
  }

  /** No use in (i, n) consumes the token. */
  ghost predicate Unconsumed<T>(uses: seq<Use<T>>, i: nat, n: nat, token: Token)
    requires n <= |uses|
  {
    forall j :: i < j < n ==> !(uses[j].Consume? && uses[j].token == token)
  }

  /** Every entry was put in by an issue, and its token has not been consumed since. */
  lemma {:induction false} EntryWasIssued<T>(c: Limits, h: History<T>, n: nat, token: Token) returns (i: nat)
    requires Happened(c, h) && n <= |h.uses| && token in h.stores[n].items
    ensures i < n && h.uses[i].Issue? && h.uses[i].token == token
    ensures h.stores[n].items[token] == Entry(h.uses[i].value, h.uses[i].now + c.ttl, h.stores[i].next)
    ensures Unconsumed(h.uses, i, n, token)
    decreases n
  {
    StepMember(c, h, n - 1, token);
    if h.uses[n - 1].Issue? && h.uses[n - 1].token == token {
      i := n - 1;
    } else {
      i := EntryWasIssued(c, h, n - 1, token);
    }
  }

  /** What a peek or consume returns is what was issued under that token, less than `ttl` ago. */
  lemma {:induction false} AnswersAreIssuedValues<T>(c: Limits, h: History<T>, n: nat) returns (i: nat)
    requires Happened(c, h) && n < |h.uses| && !h.uses[n].Issue?
    requires Answer(h, n).Some?
    ensures i < n && h.uses[i].Issue? && h.uses[i].token == h.uses[n].token
    ensures Answer(h, n) == Some(h.uses[i].value)
    ensures h.uses[n].now < h.uses[i].now + c.ttl
    ensures Unconsumed(h.uses, i, n, h.uses[n].token)
  {
    i := EntryWasIssued(c, h, n, h.uses[n].token);
  }

  /** No token is consumed successfully twice. */
  lemma {:induction false} ConsumedAtMostOnce<T>(c: Limits, h: History<T>, m: nat, n: nat)
    requires Happened(c, h) && FreshTokens(h.uses) && m < n < |h.uses|
    requires h.uses[m].Consume? && h.uses[n].Consume? && h.uses[m].token == h.uses[n].token
    requires Answer(h, m).Some?
    ensures Answer(h, n).None?
  {
    if Answer(h, n).Some? {
      var i := AnswersAreIssuedValues(c, h, m);
      var j := AnswersAreIssuedValues(c, h, n);
      assert false;
    }
  }

  // ----- order: eviction is first in, first out -----

  /** Later insertions expire later, and none later than a token issued now would. */
  ghost predicate Ordered<T>(c: Limits, s: Store<T>, now: int) {
    && (forall t :: t in s.items ==> s.items[t].order < s.next && s.items[t].expiresAt <= now + c.ttl)
    && (forall t, u :: t in s.items && u in s.items && s.items[t].order <= s.items[u].order ==>
          s.items[t].expiresAt <= s.items[u].expiresAt)
    && DistinctOrders(s.items)
  }

  ghost predicate DistinctOrders<T>(items: Items<T>) {
    forall t, u :: t in items && u in items && t != u ==> items[t].order != items[u].order
  }

  /** The same entries, some of them gone, perhaps with a newest one. */
  lemma {:induction false} FewerOrdered<T>(c: Limits, s: Store<T>, past: int, kept: Items<T>, now: int)
    requires Ordered(c, s, past) && past <= now
    requires forall t :: t in kept ==> t in s.items && kept[t] == s.items[t]
    ensures Ordered(c, Store(kept, s.next), now)
  {
  }

  lemma {:induction false} NewestOrdered<T>(c: Limits, s: Store<T>, now: int, token: Token, value: T)
    requires Positive(c) && Ordered(c, s, now)
    ensures Ordered(c, Store(s.items[token := Entry(value, now + c.ttl, s.next)], s.next + 1), now)
  {
  }

  lemma {:induction false} NextOrdered<T>(c: Limits, s: Store<T>, past: int, u: Use<T>)
    requires Positive(c) && Ordered(c, s, past) && past <= u.now
    ensures Ordered(c, Next(c, s, u), u.now)
  {
    match u
    case Issue(now, token, value) => IssuedOrdered(c, s, past, now, token, value);
    case Peek(now, _) => FewerOrdered(c, s, past, Live(s.items, now), now);
    case Consume(now, token) => FewerOrdered(c, s, past, Live(s.items, now) - {token}, now);
  }

  lemma {:induction false} IssuedOrdered<T>(c: Limits, s: Store<T>, past: int, now: int, token: Token, value: T)
    requires Positive(c) && Ordered(c, s, past) && past <= now
    ensures Ordered(c, Issued(c, s, now, token, value), now)
  {
    var room := Room(c, Live(s.items, now));
    FewerOrdered(c, s, past, room, now);
    NewestOrdered(c, Store(room, s.next), now, token, value);
  }

  lemma {:induction false} StoreIsOrdered<T>(c: Limits, h: History<T>, n: nat, now: int)
    requires Happened(c, h) && n <= |h.uses| && ClockMonotone(h.uses) && (n > 0 ==> h.uses[n - 1].now <= now)
    ensures Ordered(c, h.stores[n], now)
    decreases n
  {
    if n > 0 {
      StoreIsOrdered(c, h, n - 1, h.uses[n - 1].now);
      assert StepAt(c, h, n - 1);
      NextOrdered(c, h.stores[n - 1], h.uses[n - 1].now, h.uses[n - 1]);
      FewerOrdered(c, h.stores[n], h.uses[n - 1].now, h.stores[n].items, now);
    }
  }

  /** Making room never keeps an earlier entry at the expense of a later one. */
  lemma {:induction false} RoomKeepsLater<T>(c: Limits, s: Store<T>, past: int, now: int, t: Token, v: Token)
    requires Positive(c) && Ordered(c, s, past)
    requires t in s.items && v in s.items && s.items[t].order < s.items[v].order
    ensures t in Room(c, Live(s.items, now)) ==> v in Room(c, Live(s.items, now))
  {
    var live := Live(s.items, now);
    if t in live && |live| >= c.maxItems {
      assert v in live;
      assert Older(live[Oldest(live)], live[t]);
    }
  }

  lemma {:induction false} StepKeepsLater<T>(c: Limits, h: History<T>, n: nat, t: Token, v: Token)
    requires Happened(c, h) && ClockMonotone(h.uses) && n < |h.uses|
    requires t in h.stores[n].items && v in h.stores[n].items && h.stores[n].items[t].order < h.stores[n].items[v].order
    requires !(h.uses[n].Consume? && h.uses[n].token == v)
    requires !(h.uses[n].Issue? && h.uses[n].token == t) && t in h.stores[n + 1].items
    ensures v in h.stores[n + 1].items
  {
    var s, u := h.stores[n], h.uses[n];
    StoreIsOrdered(c, h, n, u.now);
    assert StepAt(c, h, n);
    if u.Issue? {
      RoomKeepsLater(c, s, u.now, u.now, t, v);
    }
  }

  /**
   First in, first out: if `t` was issued before `v` and `v` has not been consumed, then as long as
   `t` is in the store, so is `v`.
   */
  lemma {:induction false} EvictionIsFifo<T>(c: Limits, h: History<T>, i: nat, j: nat, n: nat)
    requires Happened(c, h) && ClockMonotone(h.uses) && FreshTokens(h.uses) && i < j < n <= |h.uses|
    requires h.uses[i].Issue? && h.uses[j].Issue? && Unconsumed(h.uses, j, n, h.uses[j].token)
    requires h.uses[i].token in h.stores[n].items
    ensures h.uses[j].token in h.stores[n].items
    decreases n
  {
    if j < n - 1 {
      StepMember(c, h, n - 1, h.uses[i].token);
      EvictionIsFifo(c, h, i, j, n - 1);
      IssueOrder(c, h, i, j, n - 1);
      StepKeepsLater(c, h, n - 1, h.uses[i].token, h.uses[j].token);
    } else {
      JustIssued(c, h, j);
    }
  }

  lemma {:induction false} JustIssued<T>(c: Limits, h: History<T>, j: nat)
    requires Happened(c, h) && j < |h.uses| && h.uses[j].Issue?
    ensures h.uses[j].token in h.stores[j + 1].items
  {
    assert StepAt(c, h, j);
  }

  /** Entries issued in order stand in order. */
  lemma {:induction false} IssueOrder<T>(c: Limits, h: History<T>, i: nat, j: nat, n: nat)
    requires Happened(c, h) && FreshTokens(h.uses) && i < j < n <= |h.uses|
    requires h.uses[i].Issue? && h.uses[i].token in h.stores[n].items
    requires h.uses[j].Issue? && h.uses[j].token in h.stores[n].items
    ensures h.stores[n].items[h.uses[i].token].order < h.stores[n].items[h.uses[j].token].order
  {
    var i' := EntryWasIssued(c, h, n, h.uses[i].token);
    var j' := EntryWasIssued(c, h, n, h.uses[j].token);
    NextCountsIssues(c, h, i, j);
  }

  // ----- completeness: what is still owed is still there -----

  function IssuesWithin<T>(uses: seq<Use<T>>, i: nat, n: nat): nat
    requires i <= n <= |uses|
    decreases n
  {
    if i == n then 0 else IssuesWithin(uses, i, n - 1) + (if uses[n - 1].Issue? then 1 else 0)
  }

  lemma {:induction false} NextCountsIssues<T>(c: Limits, h: History<T>, i: nat, n: nat)
    requires Happened(c, h) && i <= n <= |h.uses|
    ensures h.stores[n].next == h.stores[i].next + IssuesWithin(h.uses, i, n)
    ensures i < n && h.uses[i].Issue? ==> IssuesWithin(h.uses, i, n) == 1 + IssuesWithin(h.uses, i + 1, n)
    decreases n
  {
    if i < n {
      NextCountsIssues(c, h, i, n - 1);
      assert StepAt(c, h, n - 1);
    }
  }

  lemma {:induction false} OrdersCount<T>(items: Items<T>, low: nat, high: nat)
    requires low <= high && DistinctOrders(items)
    requires forall t :: t in items ==> low <= items[t].order < high
    ensures |items| <= high - low
    decreases high - low
  {
    if t :| t in items && items[t].order == high - 1 {
      KeyLost(items, t);
      OrdersCount(items - {t}, low, high - 1);
    } else if items != map[] {
      OrdersCount(items, low, high - 1);
    }
  }

  /** An entry is pushed out only when `maxItems` tokens were issued after it. */
  lemma {:induction false} RoomRetains<T>(c: Limits, s: Store<T>, now: int, t: Token)
    requires Positive(c) && Ordered(c, s, now)
    requires t in s.items && s.items[t].expiresAt > now
    requires s.next - s.items[t].order < c.maxItems
    ensures t in Room(c, Live(s.items, now))
  {
    var live := Live(s.items, now);
    if |live| >= c.maxItems && Oldest(live) == t {
      forall v | v in live ensures s.items[t].order <= live[v].order < s.next {
        assert Older(live[t], live[v]);
      }
      OrdersCount(live, s.items[t].order, s.next);
      assert false;
    }
  }

  lemma {:induction false} StepRetains<T>(c: Limits, h: History<T>, n: nat, t: Token)
    requires Happened(c, h) && ClockMonotone(h.uses) && n < |h.uses|
    requires t in h.stores[n].items && h.stores[n].items[t].expiresAt > h.uses[n].now
    requires h.uses[n].token != t || h.uses[n].Peek?
    requires h.uses[n].Issue? ==> h.stores[n].next - h.stores[n].items[t].order < c.maxItems
    ensures t in h.stores[n + 1].items
  {
    StoreIsOrdered(c, h, n, h.uses[n].now);
    assert StepAt(c, h, n);
    if h.uses[n].Issue? { RoomRetains(c, h.stores[n], h.uses[n].now, t); }
  }

  lemma {:induction false} OwedEntryStays<T>(c: Limits, h: History<T>, i: nat, n: nat)
    requires Happened(c, h) && ClockMonotone(h.uses) && FreshTokens(h.uses) && i < n <= |h.uses|
    requires h.uses[i].Issue? && Unconsumed(h.uses, i, n, h.uses[i].token)
    requires IssuesWithin(h.uses, i + 1, n) < c.maxItems
    requires forall j :: i < j < n ==> h.uses[j].now < h.uses[i].now + c.ttl
    ensures h.uses[i].token in h.stores[n].items
    decreases n
  {
    var t := h.uses[i].token;
    if i == n - 1 {
      JustIssued(c, h, i);
    } else {
      OwedEntryStays(c, h, i, n - 1);
      var i' := EntryWasIssued(c, h, n - 1, t);
      NextCountsIssues(c, h, i, n - 1);
      StepRetains(c, h, n - 1, t);
    }
  }

  /**
   A token that is neither consumed nor expired, with fewer than `maxItems` issues since its own,
   yields its value: only age, use or `maxItems` later tokens end it.
   */
  lemma {:induction false} OwedTokensAreHonoured<T>(c: Limits, h: History<T>, i: nat, n: nat)
    requires Happened(c, h) && ClockMonotone(h.uses) && FreshTokens(h.uses) && i < n < |h.uses|
    requires h.uses[i].Issue? && !h.uses[n].Issue? && h.uses[n].token == h.uses[i].token
    requires Unconsumed(h.uses, i, n, h.uses[i].token) && IssuesWithin(h.uses, i + 1, n) < c.maxItems
    requires h.uses[n].now < h.uses[i].now + c.ttl
    ensures Answer(h, n) == Some(h.uses[i].value)
  {
    OwedEntryStays(c, h, i, n);
    var i' := EntryWasIssued(c, h, n, h.uses[i].token);
  }

  /** The class with its history: its store is where the history of its uses has led. */
  class ExpiringTokenStore<T> {
    const limits: Limits
    var store: Store<T>
    ghost var history: History<T>

    ghost predicate Valid()
      reads this
    {
      && Happened(limits, history)
      && store == history.stores[|history.uses|]
      && Numbered(store)
    }

    constructor (ttl: int, maxItems: nat)
      requires Positive(Limits(ttl, maxItems))
      ensures Valid() && limits == Limits(ttl, maxItems) && history.uses == []
    {
      limits, store := Limits(ttl, maxItems), Store(map[], 0);
      history := History([Store(map[], 0)], []);
    }

    method Expire(now: int)
      modifies this`store
      ensures store == old(store).(items := Live(old(store).items, now))
    {
      var items := store.items;
      var todo := items.Keys;
      while todo != {}
        invariant todo <= items.Keys
        invariant store.next == old(store).next
        invariant store.items == map t | t in items && (t in todo || items[t].expiresAt > now) :: items[t]
        decreases |todo|
      {
        var token :| token in todo;
        todo := todo - {token};
        if items[token].expiresAt <= now { store := store.(items := store.items - {token}); }
      }
    }

    method FindOldest() returns (k: Token)
      requires store.items != map[]
      ensures IsOldest(store.items, k)
    {
      k :| k in store.items;
      var todo := store.items.Keys - {k};
      while todo != {}
        invariant todo <= store.items.Keys && k in store.items
        invariant forall t :: t in store.items && t !in todo ==> Older(store.items[k], store.items[t])
        decreases |todo|
      {
        var token :| token in todo;
        todo := todo - {token};
        if Older(store.items[token], store.items[k]) { k := token; }
      }
    }

    method MakeRoom()
      requires Positive(limits) && DistinctOrders(store.items)
      modifies this`store
      ensures store == old(store).(items := Room(limits, old(store).items))
    {
      if |store.items| >= limits.maxItems {
        var oldest := FindOldest();
        OldestIsUnique(store.items, oldest);
        store := store.(items := store.items - {oldest});
      }
    }

    method Issue(now: int, token: Token, value: T)
      requires Valid()
      modifies this
      ensures Valid()
      ensures store == Issued(limits, old(store), now, token, value)
      ensures history == Then(limits, old(history), Use.Issue(now, token, value))
    {
      Expire(now);
      MakeRoom();
      store := Store(store.items[token := Entry(value, now + limits.ttl, store.next)], store.next + 1);
      NextNumbered(limits, old(store), Use.Issue(now, token, value));
      HistoryGrows(limits, history, Use.Issue(now, token, value));
      history := Then(limits, history, Use.Issue(now, token, value));
    }

    method Peek(now: int, token: Token) returns (r: Option<T>)
      requires Valid()
      modifies this
      ensures Valid()
      ensures r == Peeked(old(store), now, token)
      ensures store == old(store).(items := Live(old(store).items, now))
      ensures history == Then(limits, old(history), Use.Peek(now, token))
    {
      Expire(now);
      r := if token in store.items then Some(store.items[token].value) else None;
      NextNumbered(limits, old(store), Use.Peek(now, token));
      HistoryGrows(limits, history, Use.Peek(now, token));
      history := Then(limits, history, Use.Peek(now, token));
    }

    method Consume(now: int, token: Token) returns (r: Option<T>)
      requires Valid()
      modifies this
      ensures Valid()
      ensures r == Peeked(old(store), now, token)
      ensures store == Consumed(old(store), now, token)
      ensures history == Then(limits, old(history), Use.Consume(now, token))
    {
      Expire(now);
      r := None;
      if token in store.items {
        r := Some(store.items[token].value);
        store := store.(items := store.items - {token});
      }
      assert store == Consumed(old(store), now, token);
      NextNumbered(limits, old(store), Use.Consume(now, token));
      HistoryGrows(limits, history, Use.Consume(now, token));
      history := Then(limits, history, Use.Consume(now, token));
    }
  }

  ghost predicate Numbered<T>(s: Store<T>) {
    DistinctOrders(s.items) && forall t :: t in s.items ==> s.items[t].order < s.next
  }

  lemma {:induction false} NextNumbered<T>(c: Limits, s: Store<T>, u: Use<T>)
    requires Positive(c) && Numbered(s)
    ensures Numbered(Next(c, s, u))
  {
    assert forall t :: t in Next(c, s, u).items && !(u.Issue? && t == u.token) ==>
        t in s.items && Next(c, s, u).items[t] == s.items[t];
  }

  lemma {:induction false} OldestIsUnique<T>(items: Items<T>, k: Token)
    requires DistinctOrders(items) && IsOldest(items, k)
    ensures k == Oldest(items)
  {
    assert Older(items[k], items[Oldest(items)]) && Older(items[Oldest(items)], items[k]);
  }
}

/** The advisory-lock discipline of both PostgreSQL modules: a transaction takes the sorted set of
    its keys (src/der_flex/reservations/postgres.py:620-630, src/der_flex/domain/postgres.py:199-209),
    and three kinds then take the sorted keys of the cells they found, in a second phase
    (src/der_flex/domain/postgres.py:353-367). A lock is identified with its key, which assumes the
    hash injective; PostgreSQL releases all of them at the end of the transaction. */
module AdvisoryLocks {
  import opened Domain
  import opened Strings

  // ----- Keys

  datatype Product = Product(zone: string, start: string, end: string, consequence: string, direction: string)

  function ProductKey(p: Product): string {
    "product:" + p.zone + ":" + p.start + ":" + p.end + ":" + p.consequence + ":" + p.direction
  }

  function CellKey(tenant: string, p: Product): string {
    "tenant:" + tenant + ":" + ProductKey(p)
  }

  datatype Kind =
    | RegisterResource(resource: string)
    | UpsertOffer
    | RemoveOffers
    | QueryOffers
    | ConsumeBudget(tenant: string, window: string)
    | PublishSnapshot(tenant: string, zone: string, epoch: string)
    | CreateReservation(tenant: string, product: Product, idempotencyKey: string)
    | TouchReservation(id: string)
    | PublishResiduals(cells: set<string>)
    | ReadOnly

  function FirstKeys(kind: Kind): set<string> {
    match kind
    case RegisterResource(resource) => {"offer-store", "resource-registry:" + resource}
    case UpsertOffer => {"offer-store"}
    case RemoveOffers => {"offer-store"}
    case QueryOffers => {"offer-store"}
    case ConsumeBudget(tenant, window) => {"privacy-budget:" + tenant + ":" + window}
    case PublishSnapshot(tenant, zone, epoch) => {"privacy-snapshot:" + tenant + ":" + zone + ":" + epoch}
    case CreateReservation(tenant, product, key) => {CellKey(tenant, product), "idempotency:" + tenant + ":" + key}
    case TouchReservation(id) => {"reservation:" + id}
    case PublishResiduals(cells) => cells
    case ReadOnly => {}
  }

  /** Registering, upserting and removing lock the cells they find. */
  predicate LocksCells(kind: Kind) {
    kind.RegisterResource? || kind.UpsertOffer? || kind.RemoveOffers?
  }

  predicate IsCellKey(key: string) {
    |key| >= 7 && key[..7] == "tenant:"
  }

  // ----- Sorted sets of keys

  predicate Increasing(keys: seq<string>) {
    forall i, j :: 0 <= i < j < |keys| ==> Less(keys[i], keys[j])
  }

  /** What sorted(set(keys)) yields. */
  ghost predicate SortedSet(order: seq<string>, keys: set<string>) {
    Increasing(order) && forall k :: k in order <==> k in keys
  }

  function InsertKey(order: seq<string>, key: string): seq<string> {
    if order == [] then [key]
    else if order[0] == key then order
    else if Less(key, order[0]) then [key] + order
    else [order[0]] + InsertKey(order[1..], key)
  }

  lemma {:induction false} InsertKeySorts(order: seq<string>, key: string)
    requires Increasing(order)
    ensures Increasing(InsertKey(order, key))
    ensures forall k :: k in InsertKey(order, key) <==> k in order || k == key
  {
    if order != [] {
      assert order == [order[0]] + order[1..];
      LessTotal(key, order[0]);
      if Less(key, order[0]) {
        forall i | 0 <= i < |order|
          ensures Less(key, order[i])
        {
          if i > 0 {
            LessTransitive(key, order[0], order[i]);
          }
        }
      } else if order[0] != key {
        InsertKeySorts(order[1..], key);
        var rest := InsertKey(order[1..], key);
        forall i | 0 <= i < |rest|
          ensures Less(order[0], rest[i])
        {
          assert rest[i] in rest;
          if rest[i] != key {
            var k :| 0 <= k < |order[1..]| && order[1..][k] == rest[i];
            assert order[k + 1] == rest[i];
          }
        }
      }
    }
  }

  /** The keys in the order in which they are locked, each once. */
  method LockOrder(keys: seq<string>) returns (order: seq<string>)
    ensures SortedSet(order, set k | k in keys)
  {
    order := [];
    for i := 0 to |keys|
      invariant Increasing(order)
      invariant forall k :: k in order <==> k in keys[..i]
    {
      InsertKeySorts(order, keys[i]);
      order := InsertKey(order, keys[i]);
      assert keys[..i + 1] == keys[..i] + [keys[i]];
    }
    assert keys[..|keys|] == keys;
  }

  /** There is only one such order. */
  lemma {:induction false} OneOrder(order: seq<string>, other: seq<string>, keys: set<string>)
    requires SortedSet(order, keys) && SortedSet(other, keys)
    ensures order == other
  {
    EmptyTogether(order, keys);
    EmptyTogether(other, keys);
    if order != [] {
      SameFirst(order, other, keys);
      TailSorted(order, keys);
      TailSorted(other, keys);
      OneOrder(order[1..], other[1..], keys - {order[0]});
      assert order == [order[0]] + order[1..] && other == [other[0]] + other[1..];
    }
  }

  lemma EmptyTogether(order: seq<string>, keys: set<string>)
    requires SortedSet(order, keys)
    ensures order == [] <==> keys == {}
  {
    if order != [] {
      assert order[0] in keys;
    }
    if keys != {} {
      var k :| k in keys;
      assert k in order;
    }
  }

  lemma SameFirst(order: seq<string>, other: seq<string>, keys: set<string>)
    requires SortedSet(order, keys) && SortedSet(other, keys) && order != [] && other != []
    ensures order[0] == other[0]
  {
    assert order[0] in keys && other[0] in keys;
    var i :| 0 <= i < |order| && order[i] == other[0];
    var j :| 0 <= j < |other| && other[j] == order[0];
    LessTotal(order[0], other[0]);
  }

  lemma TailSorted(order: seq<string>, keys: set<string>)
    requires SortedSet(order, keys) && order != []
    ensures SortedSet(order[1..], keys - {order[0]})
  {
    assert order == [order[0]] + order[1..];
    forall k | k in order[1..]
      ensures k != order[0]
    {
      var i :| 0 <= i < |order[1..]| && order[1..][i] == k;
      assert order[i + 1] == k;
      LessTotal(order[0], order[i + 1]);
    }
  }

  // ----- Transactions

  datatype Phase = First | Second

  datatype Tx = Tx(kind: Kind, phase: Phase, held: seq<string>, wanted: seq<string>)

  type Txs = map<nat, Tx>

  datatype Step =
    | Begin(t: nat, kind: Kind, order: seq<string>)
    | Acquire(t: nat)
    | FindCells(t: nat, cells: set<string>, order: seq<string>)
    | End(t: nat)

  ghost predicate HeldByOther(txs: Txs, t: nat, key: string) {
    exists u :: u in txs && u != t && key in txs[u].held
  }

  /** A transaction that wants a key another one holds waits. */
  ghost predicate Waits(txs: Txs, t: nat)
    requires t in txs
  {
    txs[t].wanted != [] && HeldByOther(txs, t, txs[t].wanted[0])
  }

  ghost predicate Enabled(txs: Txs, step: Step) {
    match step
    case Begin(t, kind, order) =>
      && t !in txs && SortedSet(order, FirstKeys(kind))
      && (kind.PublishResiduals? ==> forall key :: key in kind.cells ==> IsCellKey(key))
    case Acquire(t) => t in txs && txs[t].wanted != [] && !Waits(txs, t)
    case FindCells(t, cells, order) =>
      && t in txs && txs[t].wanted == [] && txs[t].phase == First && LocksCells(txs[t].kind)
      && SortedSet(order, cells) && forall key :: key in cells ==> IsCellKey(key)
    case End(t) => t in txs
  }

  ghost function Apply(txs: Txs, step: Step): Txs
    requires Enabled(txs, step)
  {
    match step
    case Begin(t, kind, order) => txs[t := Tx(kind, First, [], order)]
    case Acquire(t) => txs[t := txs[t].(held := txs[t].held + [txs[t].wanted[0]], wanted := txs[t].wanted[1..])]
    case FindCells(t, cells, order) => txs[t := txs[t].(phase := Second, wanted := order)]
    case End(t) => txs - {t}
  }

  // ----- What every transaction keeps to

  /** Everything taken or wanted is increasing; before its second phase, it precedes every cell key. */
  ghost predicate Disciplined(tx: Tx) {
    && Increasing(tx.held + tx.wanted)
    && (tx.phase == First && LocksCells(tx.kind) ==>
          forall key :: key in tx.held + tx.wanted ==> Less(key, "tenant:"))
  }

  ghost predicate Exclusive(txs: Txs) {
    forall t, u, key :: t in txs && u in txs && t != u && key in txs[t].held ==> key !in txs[u].held
  }

  ghost predicate Inv(txs: Txs) {
    (forall t :: t in txs ==> Disciplined(txs[t])) && Exclusive(txs)
  }

  /** The keys of the first phase of what locks cells precede those of the cells. */
  lemma FirstKeysPrecedeCells(kind: Kind, key: string)
    requires LocksCells(kind) && key in FirstKeys(kind)
    ensures Less(key, "tenant:")
  {
    assert key[0] == 'o' || key[0] == 'r';
  }

  lemma CellKeysFollow(key: string, cell: string)
    requires Less(key, "tenant:") && IsCellKey(cell)
    ensures Less(key, cell)
  {
    PrefixNotAfter("tenant:", cell);
    if cell != "tenant:" {
      LessTransitive(key, "tenant:", cell);
    }
  }

  lemma {:induction false} PrefixNotAfter(prefix: string, s: string)
    requires |prefix| <= |s| && s[..|prefix|] == prefix
    ensures prefix == s || Less(prefix, s)
  {
    if prefix != "" {
      assert prefix[0] == s[0];
      assert s[1..][..|prefix| - 1] == prefix[1..];
      PrefixNotAfter(prefix[1..], s[1..]);
      assert s == [s[0]] + s[1..] && prefix == [prefix[0]] + prefix[1..];
    }
  }

  lemma BeginKeeps(kind: Kind, order: seq<string>)
    requires SortedSet(order, FirstKeys(kind))
    ensures Disciplined(Tx(kind, First, [], order))
  {
    assert [] + order == order;
    if LocksCells(kind) {
      forall key | key in order
        ensures Less(key, "tenant:")
      {
        FirstKeysPrecedeCells(kind, key);
      }
    }
  }

  lemma AcquireKeeps(tx: Tx)
    requires Disciplined(tx) && tx.wanted != []
    ensures Disciplined(tx.(held := tx.held + [tx.wanted[0]], wanted := tx.wanted[1..]))
  {
    assert tx.held + [tx.wanted[0]] + tx.wanted[1..] == tx.held + tx.wanted;
  }

  lemma FindCellsKeeps(tx: Tx, cells: set<string>, order: seq<string>)
    requires Disciplined(tx) && tx.wanted == [] && tx.phase == First && LocksCells(tx.kind)
    requires SortedSet(order, cells) && forall key :: key in cells ==> IsCellKey(key)
    ensures Disciplined(tx.(phase := Second, wanted := order))
  {
    assert tx.held + tx.wanted == tx.held;
    forall i, j | 0 <= i < |tx.held| && 0 <= j < |order|
      ensures Less(tx.held[i], order[j])
    {
      assert tx.held[i] in tx.held + tx.wanted && order[j] in cells;
      CellKeysFollow(tx.held[i], order[j]);
    }
  }

  lemma StepKeeps(txs: Txs, step: Step)
    requires Inv(txs) && Enabled(txs, step)
    ensures Inv(Apply(txs, step))
  {
    match step
    case Begin(t, kind, order) => BeginKeeps(kind, order);
    case Acquire(t) => AcquireKeeps(txs[t]);
    case FindCells(t, cells, order) => FindCellsKeeps(txs[t], cells, order);
    case End(t) =>
  }

  ghost predicate Run(states: seq<Txs>, steps: seq<Step>) {
    && |states| == |steps| + 1 && states[0] == map[]
    && forall k :: 0 <= k < |steps| ==> Enabled(states[k], steps[k]) && states[k + 1] == Apply(states[k], steps[k])
  }

  lemma {:induction false} Reachable(states: seq<Txs>, steps: seq<Step>, k: nat)
    requires Run(states, steps) && k < |states|
    ensures Inv(states[k])
  {
    if k > 0 {
      Reachable(states, steps, k - 1);
      StepKeeps(states[k - 1], steps[k - 1]);
    }
  }

  /** Every transaction takes its keys in strictly increasing order, and no two hold the same one. */
  lemma AcquiredInOrder(states: seq<Txs>, steps: seq<Step>, k: nat, t: nat)
    requires Run(states, steps) && k < |states| && t in states[k]
    ensures Increasing(states[k][t].held + states[k][t].wanted)
    ensures forall u, key :: u in states[k] && u != t && key in states[k][t].held ==> key !in states[k][u].held
  {
    Reachable(states, steps, k);
    assert Disciplined(states[k][t]);
  }

  // ----- Deadlock freedom

  /** Among waiting transactions there is one whose wanted key no other's exceeds. */
  lemma {:induction false} GreatestWanted(txs: Txs, among: set<nat>) returns (t: nat)
    requires among != {} && forall u :: u in among ==> u in txs && txs[u].wanted != []
    ensures t in among && forall u :: u in among ==> !Less(txs[t].wanted[0], txs[u].wanted[0])
    decreases |among|
  {
    var s :| s in among;
    var rest := among - {s};
    LessTotal(txs[s].wanted[0], txs[s].wanted[0]);
    if rest == {} {
      t := s;
      assert among == {s};
    } else {
      var r := GreatestWanted(txs, rest);
      LessTotal(txs[r].wanted[0], txs[s].wanted[0]);
      if Less(txs[r].wanted[0], txs[s].wanted[0]) {
        t := s;
        forall u | u in among
          ensures !Less(txs[s].wanted[0], txs[u].wanted[0])
        {
          if u != s && Less(txs[s].wanted[0], txs[u].wanted[0]) {
            LessTransitive(txs[r].wanted[0], txs[s].wanted[0], txs[u].wanted[0]);
          }
        }
      } else {
        t := r;
      }
    }
  }

  /** A holder that waits wants a greater key than any it holds. */
  lemma HolderWantsMore(tx: Tx, key: string)
    requires Disciplined(tx) && tx.wanted != [] && key in tx.held
    ensures Less(key, tx.wanted[0])
  {
    var i :| 0 <= i < |tx.held| && tx.held[i] == key;
    var all := tx.held + tx.wanted;
    assert all[i] == key && all[|tx.held|] == tx.wanted[0];
  }

  /** Who makes a transaction wait wants nothing more, or something greater. */
  lemma Holder(txs: Txs, t: nat) returns (u: nat)
    requires Inv(txs) && t in txs && Waits(txs, t)
    ensures u in txs && (txs[u].wanted == [] || Less(txs[t].wanted[0], txs[u].wanted[0]))
  {
    u :| u in txs && u != t && txs[t].wanted[0] in txs[u].held;
    if txs[u].wanted != [] {
      HolderWantsMore(txs[u], txs[t].wanted[0]);
    }
  }

  lemma SomeoneDoesNotWait(txs: Txs) returns (t: nat)
    requires Inv(txs) && txs != map[]
    ensures t in txs && !Waits(txs, t)
  {
    var wanting := set u | u in txs && txs[u].wanted != [];
    if wanting == {} {
      assert txs.Keys != {};
      t :| t in txs;
      assert t !in wanting;
    } else {
      t := GreatestWanted(txs, wanting);
      if Waits(txs, t) {
        var u := Holder(txs, t);
        assert u !in wanting;
        t := u;
      }
    }
  }

  /** No deadlock on advisory locks: in every interleaving some unfinished transaction can acquire
      its next key, or has all it wants and goes on. */
  lemma SomeTransactionMoves(states: seq<Txs>, steps: seq<Step>, k: nat)
    requires Run(states, steps) && k < |states| && states[k] != map[]
    ensures exists t :: t in states[k] && (Enabled(states[k], Acquire(t)) || states[k][t].wanted == [])
  {
    Reachable(states, steps, k);
    var t := SomeoneDoesNotWait(states[k]);
    assert Enabled(states[k], Acquire(t)) || states[k][t].wanted == [];
  }

  // ----- What the locks keep apart

  predicate UsesOfferStore(kind: Kind) {
    kind.RegisterResource? || kind.UpsertOffer? || kind.RemoveOffers? || kind.QueryOffers?
  }

  /** Two transactions whose reads and writes would meet: both on the offer store, on one budget, on
      the snapshots of one epoch, on one product or idempotency key, on one reservation, or on one
      residual. */
  predicate SameData(x: Kind, y: Kind) {
    || (UsesOfferStore(x) && UsesOfferStore(y))
    || (x.ConsumeBudget? && y.ConsumeBudget? && x.tenant == y.tenant && x.window == y.window)
    || (x.PublishSnapshot? && y.PublishSnapshot? && x.tenant == y.tenant && x.zone == y.zone && x.epoch == y.epoch)
    || (x.CreateReservation? && y.CreateReservation? && x.tenant == y.tenant
        && (x.product == y.product || x.idempotencyKey == y.idempotencyKey))
    || (x.TouchReservation? && y.TouchReservation? && x.id == y.id)
    || (x.PublishResiduals? && y.PublishResiduals? && x.cells * y.cells != {})
    || (x.CreateReservation? && y.PublishResiduals? && CellKey(x.tenant, x.product) in y.cells)
  }

  lemma SameDataShares(x: Kind, y: Kind) returns (key: string)
    requires SameData(x, y)
    ensures key in FirstKeys(x) && key in FirstKeys(y)
  {
    key := "offer-store";
    if x.PublishResiduals? && y.PublishResiduals? {
      key :| key in x.cells * y.cells;
    } else if x.CreateReservation? && (y.PublishResiduals? || x.product == y.product) {
      key := CellKey(x.tenant, x.product);
    } else if x.CreateReservation? {
      key := "idempotency:" + x.tenant + ":" + x.idempotencyKey;
    } else if x.TouchReservation? {
      key := "reservation:" + x.id;
    } else if x.ConsumeBudget? {
      key := "privacy-budget:" + x.tenant + ":" + x.window;
    } else if x.PublishSnapshot? {
      key := "privacy-snapshot:" + x.tenant + ":" + x.zone + ":" + x.epoch;
    }
  }

  /** The keys of the first phase are held or still wanted; once none is wanted they stay held. */
  ghost predicate KeepsFirst(tx: Tx) {
    forall key :: key in FirstKeys(tx.kind) ==> key in tx.held || (tx.phase == First && key in tx.wanted)
  }

  ghost predicate AllKeepFirst(txs: Txs) {
    forall t :: t in txs ==> KeepsFirst(txs[t])
  }

  lemma StepKeepsFirst(txs: Txs, step: Step)
    requires Enabled(txs, step) && AllKeepFirst(txs)
    ensures AllKeepFirst(Apply(txs, step))
  {
    if step.Acquire? {
      var tx := txs[step.t];
      assert tx.wanted == [tx.wanted[0]] + tx.wanted[1..];
      assert KeepsFirst(tx);
    } else if step.FindCells? {
      assert KeepsFirst(txs[step.t]);
    }
  }

  lemma {:induction false} ReachableKeepsFirst(states: seq<Txs>, steps: seq<Step>, k: nat)
    requires Run(states, steps) && k < |states|
    ensures AllKeepFirst(states[k])
  {
    if k > 0 {
      ReachableKeepsFirst(states, steps, k - 1);
      StepKeepsFirst(states[k - 1], steps[k - 1]);
    }
  }

  /** A transaction that waits for no key of its first phase: from here on it reads and writes. */
  ghost predicate AtWork(tx: Tx) {
    tx.wanted == [] || tx.phase == Second
  }

  /** In no state of any interleaving are two transactions at work on the same data. */
  lemma NeverTogether(states: seq<Txs>, steps: seq<Step>, k: nat, t: nat, u: nat)
    requires Run(states, steps) && k < |states| && t in states[k] && u in states[k]
    requires AtWork(states[k][t]) && AtWork(states[k][u]) && SameData(states[k][t].kind, states[k][u].kind)
    ensures t == u
  {
    var key := SameDataShares(states[k][t].kind, states[k][u].kind);
    ReachableKeepsFirst(states, steps, k);
    assert KeepsFirst(states[k][t]) && KeepsFirst(states[k][u]);
    AcquiredInOrder(states, steps, k, t);
  }

  /** Nor does any transaction hold a cell, found in its second phase or not, while a creation of a
      reservation is at work on that cell. */
  lemma CreationHasItsCell(states: seq<Txs>, steps: seq<Step>, k: nat, t: nat, u: nat)
    requires Run(states, steps) && k < |states| && t in states[k] && u in states[k] && t != u
    requires AtWork(states[k][t]) && states[k][t].kind.CreateReservation?
    ensures CellKey(states[k][t].kind.tenant, states[k][t].kind.product) !in states[k][u].held
  {
    var key := CellKey(states[k][t].kind.tenant, states[k][t].kind.product);
    assert key in FirstKeys(states[k][t].kind);
    ReachableKeepsFirst(states, steps, k);
    assert KeepsFirst(states[k][t]);
    AcquiredInOrder(states, steps, k, t);
  }
}

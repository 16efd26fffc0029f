/**
  Checkout finalisation (supporter-service/src/db.ts, index.ts, paypal.ts).

  Every SQL statement or batch is one atomic step on the tables of supporter-service/migrations/0001_initial.sql.
  Requests run concurrently; a finaliser takes a 60-second lease on its claim by marking it `processing`.
*/
module Checkout {
  import opened Common

  const LEASE := 60
  const STALE_PROCESSING := 300

  datatype Status = Creating | Pending | Processing | Completed | Cancelled | Expired | Failed

  datatype Claim = Claim(status: Status, order: Option<int>, device: int, expiresAt: int, startedAt: Option<int>,
                         entitlement: Option<int>, cipher: Option<int>, deliveredAt: Option<int>)

  datatype Entitlement = Entitlement(order: int, capture: int, hash: int, active: bool)

  datatype Db = Db(claims: map<int, Claim>, entitlements: map<int, Entitlement>, devices: set<(int, int)>)

  // ------------------------------------------------------------------ the payment

  datatype Money = Money(currency: string, value: string)
  datatype Capture = Capture(id: int, completed: bool, merchant: Option<string>, amount: Money)
  datatype PurchaseUnit = PurchaseUnit(customId: int, merchant: Option<string>, captures: seq<Capture>)
  datatype PayPalOrder = PayPalOrder(id: int, completed: bool, units: seq<PurchaseUnit>)
  datatype Shop = Shop(merchant: string, price: Money)

  datatype Verdict = Valid(capture: Capture) | NotCompleted | ClaimMismatch | MerchantMismatch | AmountMismatch

  function FirstCompleted(captures: seq<Capture>): Option<Capture> {
    if captures == [] then None
    else if captures[0].completed then Some(captures[0])
    else FirstCompleted(captures[1..])
  }

  /** `validateCompletedOrder`. */
  function ValidateCompletedOrder(shop: Shop, order: PayPalOrder, claim: int): Verdict {
    if !order.completed || order.units == [] || FirstCompleted(order.units[0].captures).None? then NotCompleted
    else
      var unit, capture := order.units[0], FirstCompleted(order.units[0].captures).value;
      if unit.customId != claim then ClaimMismatch
      else if capture.merchant != Some(shop.merchant) && unit.merchant != Some(shop.merchant) then MerchantMismatch
      else if capture.amount != shop.price then AmountMismatch
      else Valid(capture)
  }

  lemma {:induction false} FirstCompletedIsFirst(captures: seq<Capture>)
    ensures var r := FirstCompleted(captures);
            if r.None? then forall i :: 0 <= i < |captures| ==> !captures[i].completed
            else exists i :: 0 <= i < |captures| && captures[i] == r.value && r.value.completed && forall k :: 0 <= k < i ==> !captures[k].completed
  {
    if captures != [] && !captures[0].completed {
      FirstCompletedIsFirst(captures[1..]);
      var r := FirstCompleted(captures[1..]);
      if r.Some? {
        var i :| 0 <= i < |captures[1..]| && captures[1..][i] == r.value && forall k :: 0 <= k < i ==> !captures[1..][k].completed;
        forall k | 0 <= k < i + 1 ensures !captures[k].completed {
          if k > 0 { assert captures[k] == captures[1..][k - 1]; }
        }
        assert captures[i + 1] == r.value;
      }
    }
  }

  /** A paid order activates exactly one claim, and only with a completed capture of the full price. */
  lemma OrderPaysOneClaim(shop: Shop, order: PayPalOrder, claim: int, other: int)
    requires ValidateCompletedOrder(shop, order, claim).Valid?
    ensures ValidateCompletedOrder(shop, order, other).Valid? <==> other == claim
    ensures var capture := ValidateCompletedOrder(shop, order, claim).capture;
            capture in order.units[0].captures && capture.completed && capture.amount == shop.price
  {
    FirstCompletedIsFirst(order.units[0].captures);
  }

  // ------------------------------------------------------------------ statements

  function SetClaim(db: Db, id: int, claim: Claim): Db { db.(claims := db.claims[id := claim]) }

  function MarkStatus(db: Db, id: int, from: set<Status>, to: Status): Db {
    if id in db.claims && db.claims[id].status in from then SetClaim(db, id, db.claims[id].(status := to)) else db
  }

  predicate OrderTaken(db: Db, order: int) {
    exists id :: id in db.claims && db.claims[id].order == Some(order)
  }

  /** `markCheckoutPending`; the order column is unique, so an order already recorded makes the statement fail. */
  function MarkPending(db: Db, id: int, order: int): Db {
    if id in db.claims && db.claims[id].status == Creating && !OrderTaken(db, order) then
      SetClaim(db, id, db.claims[id].(order := Some(order), status := Pending))
    else db
  }

  predicate MayBegin(c: Claim, now: int) {
    || c.status in {Creating, Pending, Expired, Cancelled, Failed}
    || (c.status == Processing && c.startedAt.Some? && c.startedAt.value < now - LEASE)
  }

  /** `beginCheckoutCompletion` for a verified completed capture: whether a row changed, and the tables. */
  function Begin(db: Db, id: int, now: int): (r: (Db, bool)) {
    if id in db.claims && MayBegin(db.claims[id], now) then
      (SetClaim(db, id, db.claims[id].(status := Processing, startedAt := Some(now))), true)
    else (db, false)
  }

  /** `releaseCheckoutCompletion`: it does not ask who holds the claim. */
  function Release(db: Db, id: int): Db {
    if id in db.claims && db.claims[id].status == Processing then
      SetClaim(db, id, db.claims[id].(status := Pending, startedAt := None))
    else db
  }

  /** `acknowledgeCheckoutReceipt`. */
  function Acknowledge(db: Db, id: int, at: int): Db {
    if id in db.claims && db.claims[id].status == Completed && db.claims[id].entitlement.Some? then
      var c := db.claims[id];
      SetClaim(db, id, c.(deliveredAt := if c.deliveredAt.Some? then c.deliveredAt else Some(at), cipher := None))
    else db
  }

  function CleanedClaim(c: Claim, now: int): Claim {
    if c.status in {Creating, Pending} && c.expiresAt < now then c.(status := Expired)
    else if c.status == Processing && c.startedAt.Some? && c.startedAt.value < now - STALE_PROCESSING then c.(status := Pending, startedAt := None)
    else c
  }

  /** `cleanupExpiredRecords`, as far as claims go. */
  function Cleanup(db: Db, now: int): Db {
    db.(claims := map id | id in db.claims :: CleanedClaim(db.claims[id], now))
  }

  /** Some existing entitlement clashes with the new row's id, order, capture or recovery hash. */
  predicate Clashes(db: Db, id: int, e: Entitlement) {
    id in db.entitlements
    || exists k :: k in db.entitlements && (db.entitlements[k].order == e.order || db.entitlements[k].capture == e.capture || db.entitlements[k].hash == e.hash)
  }

  /**
    The batch of `completeCheckout`. The entitlement insert is ignored when it clashes; the device insert then
    violates its foreign key unless the id exists, which fails the batch and rolls it back. The claim is completed
    only if it is still being processed.
  */
  function CompleteBatch(db: Db, id: int, snapshot: Claim, entitlement: int, capture: int, hash: int, cipher: int): Option<Db>
    requires snapshot.order.Some?
  {
    var row := Entitlement(snapshot.order.value, capture, hash, true);
    var inserted := if Clashes(db, entitlement, row) then db else db.(entitlements := db.entitlements[entitlement := row]);
    if entitlement !in inserted.entitlements then None
    else
      var admitted := inserted.(devices := inserted.devices + {(entitlement, snapshot.device)});
      if id in admitted.claims && admitted.claims[id].status == Processing then
        Some(SetClaim(admitted, id, admitted.claims[id].(status := Completed, entitlement := Some(entitlement), cipher := Some(cipher))))
      else Some(admitted)
  }

  // ------------------------------------------------------------------ payment and entitlement belong together

  /** Claim `id` is completed with entitlement `e`, which is for its order. */
  predicate Owns(db: Db, id: int, e: int) {
    && id in db.claims && e in db.entitlements && db.claims[id].status == Completed
    && db.claims[id].entitlement == Some(e) && db.claims[id].order == Some(db.entitlements[e].order)
  }

  predicate ClaimSound(db: Db, id: int)
    requires id in db.claims
  {
    var c := db.claims[id];
    && (c.order.Some? ==> c.status != Creating)
    && if c.status == Completed then
         c.entitlement.Some? && Owns(db, id, c.entitlement.value) && (c.cipher.None? ==> c.deliveredAt.Some?)
       else c.entitlement.None? && c.cipher.None?
  }

  predicate OrdersUnique(db: Db) {
    forall a, b :: a in db.claims && b in db.claims && a != b && db.claims[a].order.Some? ==> db.claims[a].order != db.claims[b].order
  }

  ghost predicate Paired(db: Db) {
    && (forall id :: id in db.claims ==> ClaimSound(db, id))
    && (forall e :: e in db.entitlements ==> exists id :: Owns(db, id, e))
    && OrdersUnique(db)
  }

  lemma SameOrderSameClaim(db: Db, a: int, b: int)
    requires OrdersUnique(db) && a in db.claims && b in db.claims && db.claims[a].order.Some? && db.claims[a].order == db.claims[b].order
    ensures a == b
  {
  }

  /** An order's entitlement exists exactly when its claim is completed, and the claim names it. */
  lemma EntitledIffCompleted(db: Db, id: int, order: int)
    requires Paired(db) && id in db.claims && db.claims[id].order == Some(order)
    ensures db.claims[id].status == Completed <==> exists e :: e in db.entitlements && db.entitlements[e].order == order
    ensures forall e :: e in db.entitlements && db.entitlements[e].order == order ==> db.claims[id].entitlement == Some(e)
  {
    assert ClaimSound(db, id);
    forall e | e in db.entitlements && db.entitlements[e].order == order
      ensures db.claims[id].status == Completed && db.claims[id].entitlement == Some(e)
    {
      var owner :| Owns(db, owner, e);
      SameOrderSameClaim(db, owner, id);
    }
  }

  // ------------------------------------------------------------------ what statements keep

  /** Claims other than `id` and all entitlements are as before. */
  predicate OnlyClaim(db: Db, next: Db, id: int) {
    && next.entitlements == db.entitlements && next.claims.Keys == db.claims.Keys
    && forall k :: k in db.claims && k != id ==> next.claims[k] == db.claims[k]
  }

  /** Rewriting one unfinished claim keeps payment and entitlement together if it stays unfinished and keeps its order. */
  lemma UnfinishedClaimKeepsPairing(db: Db, next: Db, id: int)
    requires Paired(db) && id in db.claims && OnlyClaim(db, next, id)
    requires db.claims[id].status != Completed && next.claims[id].status != Completed
    requires next.claims[id].entitlement.None? && next.claims[id].cipher.None?
    requires next.claims[id].order.Some? ==> next.claims[id].status != Creating
    requires next.claims[id].order == db.claims[id].order || (next.claims[id].order.Some? && !OrderTaken(db, next.claims[id].order.value))
    ensures Paired(next)
  {
    forall k | k in next.claims ensures ClaimSound(next, k) {
      assert ClaimSound(db, k);
      if k != id && db.claims[k].status == Completed { assert Owns(next, k, db.claims[k].entitlement.value); }
    }
    forall e | e in next.entitlements ensures exists k :: Owns(next, k, e) {
      var k :| Owns(db, k, e);
      assert Owns(next, k, e);
    }
  }

  /** The tables after one statement that touches a claim without completing it. */
  lemma StatementsKeepPairing(db: Db, id: int, order: int, now: int, at: int, from: set<Status>, to: Status)
    requires Paired(db) && Completed !in from && to !in {Creating, Completed}
    ensures Paired(MarkStatus(db, id, from, to))
    ensures Paired(MarkPending(db, id, order))
    ensures Paired(Begin(db, id, now).0)
    ensures Paired(Release(db, id))
    ensures Paired(Acknowledge(db, id, at))
  {
    if id in db.claims {
      assert ClaimSound(db, id);
      if db.claims[id].status != Completed {
        if db.claims[id].status in from { UnfinishedClaimKeepsPairing(db, MarkStatus(db, id, from, to), id); }
        if db.claims[id].status == Creating && !OrderTaken(db, order) { UnfinishedClaimKeepsPairing(db, MarkPending(db, id, order), id); }
        if MayBegin(db.claims[id], now) { UnfinishedClaimKeepsPairing(db, Begin(db, id, now).0, id); }
        if db.claims[id].status == Processing { UnfinishedClaimKeepsPairing(db, Release(db, id), id); }
      } else {
        AcknowledgeKeepsPairing(db, id, at);
      }
    }
  }

  lemma AcknowledgeKeepsPairing(db: Db, id: int, at: int)
    requires Paired(db) && id in db.claims && db.claims[id].status == Completed
    ensures Paired(Acknowledge(db, id, at))
  {
    var next := Acknowledge(db, id, at);
    forall k | k in next.claims ensures ClaimSound(next, k) {
      assert ClaimSound(db, k);
      if db.claims[k].status == Completed { assert Owns(next, k, db.claims[k].entitlement.value); }
    }
    forall e | e in next.entitlements ensures exists k :: Owns(next, k, e) {
      var k :| Owns(db, k, e);
      assert Owns(next, k, e);
    }
  }

  /** The claim is as before, or was and is unfinished, with the same order. */
  predicate Undisturbed(before: Claim, after: Claim) {
    || after == before
    || (before.status != Completed && after.status !in {Creating, Completed} && after.entitlement == before.entitlement
        && after.cipher == before.cipher && after.order == before.order)
  }

  lemma UndisturbedClaimsKeepPairing(db: Db, next: Db)
    requires Paired(db) && next.entitlements == db.entitlements && next.claims.Keys == db.claims.Keys
    requires forall k :: k in db.claims ==> Undisturbed(db.claims[k], next.claims[k])
    ensures Paired(next)
  {
    forall k | k in next.claims ensures ClaimSound(next, k) {
      assert ClaimSound(db, k) && Undisturbed(db.claims[k], next.claims[k]);
      if db.claims[k].status == Completed { assert Owns(next, k, db.claims[k].entitlement.value); }
    }
    forall e | e in next.entitlements ensures exists k :: Owns(next, k, e) {
      var k :| Owns(db, k, e);
      assert Undisturbed(db.claims[k], next.claims[k]);
      assert Owns(next, k, e);
    }
    forall x, y | x in next.claims && y in next.claims && x != y && next.claims[x].order.Some? ensures next.claims[x].order != next.claims[y].order {
      assert Undisturbed(db.claims[x], next.claims[x]) && Undisturbed(db.claims[y], next.claims[y]);
    }
  }

  lemma CleanupKeepsPairing(db: Db, now: int)
    requires Paired(db)
    ensures Paired(Cleanup(db, now))
  {
    var next := Cleanup(db, now);
    forall k | k in db.claims ensures Undisturbed(db.claims[k], next.claims[k]) {
      assert next.claims[k] == CleanedClaim(db.claims[k], now);
    }
    UndisturbedClaimsKeepPairing(db, next);
  }

  /** While a claim has no entitlement yet, the batch for it keeps the pairing exactly when it finds the claim in processing. */
  lemma BatchKeepsPairingIffProcessing(db: Db, id: int, snapshot: Claim, entitlement: int, capture: int, hash: int, cipher: int)
    requires Paired(db) && id in db.claims && snapshot.order.Some? && db.claims[id].order == snapshot.order
    requires entitlement !in db.entitlements
    requires CompleteBatch(db, id, snapshot, entitlement, capture, hash, cipher).Some?
    ensures Paired(CompleteBatch(db, id, snapshot, entitlement, capture, hash, cipher).value) <==> db.claims[id].status == Processing
  {
    var next := CompleteBatch(db, id, snapshot, entitlement, capture, hash, cipher).value;
    assert ClaimSound(db, id);
    if db.claims[id].status == Processing {
      CompletionKeepsPairing(db, next, id, entitlement);
    } else {
      forall owner ensures !Owns(next, owner, entitlement) {
        if owner in db.claims { assert ClaimSound(db, owner); }
      }
    }
  }

  lemma CompletionKeepsPairing(db: Db, next: Db, id: int, entitlement: int)
    requires Paired(db) && id in db.claims && db.claims[id].status == Processing && entitlement !in db.entitlements
    requires next.claims.Keys == db.claims.Keys && (forall k :: k in db.claims && k != id ==> next.claims[k] == db.claims[k])
    requires next.entitlements.Keys == db.entitlements.Keys + {entitlement}
    requires forall e :: e in db.entitlements ==> next.entitlements[e] == db.entitlements[e]
    requires Owns(next, id, entitlement) && next.claims[id].order == db.claims[id].order && next.claims[id].cipher.Some?
    ensures Paired(next)
  {
    forall k | k in next.claims ensures ClaimSound(next, k) {
      assert ClaimSound(db, k);
      if k != id && db.claims[k].status == Completed { assert Owns(next, k, db.claims[k].entitlement.value); }
    }
    forall e | e in next.entitlements ensures exists k :: Owns(next, k, e) {
      if e in db.entitlements {
        var k :| Owns(db, k, e);
        assert Owns(next, k, e);
      } else {
        assert Owns(next, id, e);
      }
    }
  }

  // ------------------------------------------------------------------ concurrent finalisers

  /** Where a run of `finalizePaidOrder` stands; snapshots are claims it has read. */
  datatype Pc = Starting | Leased | Loaded(snapshot: Claim) | Ready(snapshot: Claim) | Committed | Failing

  datatype Finaliser = Finaliser(claim: int, order: int, capture: int, startedAt: int, pc: Pc)

  /** `paid` records every verified payment: claim, order and capture. */
  datatype State = State(db: Db, clock: int, finalisers: map<int, Finaliser>, paid: set<(int, int, int)>)

  datatype Step =
    | Tick(to: int)
    | Insert(id: int, claim: Claim)
    | Pend(id: int, orderId: int)
    | Fail(id: int)
    | Cancel(id: int)
    | Ack(id: int, at: int)
    | Clean(now: int)
    | Revoke(entitlement: int)
    | Start(f: int, id: int, order: PayPalOrder)
    | Lease(f: int, now: int)
    | Load(f: int)
    | Recheck(f: int)
    | Commit(f: int, newId: int, hash: int, cipher: int)
    | Confirm(f: int)
    | Throw(f: int)
    | Free(f: int)
    | Die(f: int)

  /** A finaliser that holds, or held, the claim and is still within its lease. */
  predicate Live(s: State, fin: Finaliser) {
    (fin.pc.Leased? || fin.pc.Loaded? || fin.pc.Ready? || fin.pc.Failing?) && s.clock <= fin.startedAt + LEASE
  }

  /** Finaliser `f` is running, within its lease or not. */
  predicate Runs(s: State, f: int) { f in s.finalisers && s.finalisers[f].claim in s.db.claims }

  /** Finaliser `f` is running and may act: it never acts after its lease. */
  predicate Acts(s: State, f: int) {
    Runs(s, f) && (Live(s, s.finalisers[f]) || s.finalisers[f].pc.Committed?)
  }

  /** What can happen when finalisers may act late. Times are read from the clock before the statement that binds them runs. */
  predicate Possible(shop: Shop, s: State, step: Step) {
    match step
    case Tick(to) => to >= s.clock
    case Insert(id, claim) => id !in s.db.claims && FreshClaim(claim)
    case Pend(_, _) => true
    case Fail(_) => true
    case Cancel(_) => true
    case Ack(_, _) => true
    case Clean(now) => now <= s.clock
    case Revoke(e) => e in s.db.entitlements
    case Start(f, id, order) =>
      && f !in s.finalisers && id in s.db.claims && s.db.claims[id].status != Completed
      && s.db.claims[id].order == Some(order.id) && ValidateCompletedOrder(shop, order, id).Valid?
    case Lease(f, now) => f in s.finalisers && s.finalisers[f].pc.Starting? && now <= s.clock
    case Load(f) => Runs(s, f) && s.finalisers[f].pc.Leased?
    case Recheck(f) => Runs(s, f) && s.finalisers[f].pc.Loaded?
    case Commit(f, newId, _, _) => Runs(s, f) && s.finalisers[f].pc.Ready? && s.finalisers[f].pc.snapshot.order.Some? && newId !in s.db.entitlements
    case Confirm(f) => Runs(s, f) && s.finalisers[f].pc.Committed?
    case Throw(f) => Runs(s, f)
    case Free(f) => Runs(s, f) && s.finalisers[f].pc.Failing?
    case Die(f) => f in s.finalisers
  }

  /** The finaliser that takes a step after it has its claim. */
  function Actor(step: Step): Option<int> {
    match step
    case Load(f) => Some(f)
    case Recheck(f) => Some(f)
    case Commit(f, _, _, _) => Some(f)
    case Confirm(f) => Some(f)
    case Throw(f) => Some(f)
    case Free(f) => Some(f)
    case _ => None
  }

  /** What can happen when no finaliser acts after its lease. */
  predicate Enabled(shop: Shop, s: State, step: Step) {
    Possible(shop, s, step) && (Actor(step).Some? ==> Acts(s, Actor(step).value))
  }

  function At(s: State, f: int, pc: Pc): State
    requires f in s.finalisers
  {
    s.(finalisers := s.finalisers[f := s.finalisers[f].(pc := pc)])
  }

  function Without(s: State, f: int): State { s.(finalisers := s.finalisers - {f}) }

  function Apply(shop: Shop, s: State, step: Step): State
    requires Possible(shop, s, step)
  {
    match step
    case Tick(to) => s.(clock := to)
    case Insert(id, claim) => s.(db := SetClaim(s.db, id, claim))
    case Pend(id, order) => s.(db := MarkPending(s.db, id, order))
    case Fail(id) => s.(db := MarkStatus(s.db, id, {Creating, Pending}, Failed))
    case Cancel(id) => s.(db := MarkStatus(s.db, id, {Creating, Pending}, Cancelled))
    case Ack(id, at) => s.(db := Acknowledge(s.db, id, at))
    case Clean(now) => s.(db := Cleanup(s.db, now))
    case Revoke(e) => s.(db := s.db.(entitlements := s.db.entitlements[e := s.db.entitlements[e].(active := false)]))
    case Start(f, id, order) =>
      var capture := ValidateCompletedOrder(shop, order, id).capture.id;
      s.(finalisers := s.finalisers[f := Finaliser(id, order.id, capture, 0, Starting)], paid := s.paid + {(id, order.id, capture)})
    case Lease(f, now) =>
      var fin, begun := s.finalisers[f], Begin(s.db, s.finalisers[f].claim, now);
      if begun.1 then s.(db := begun.0, finalisers := s.finalisers[f := fin.(startedAt := now, pc := Leased)]) else Without(s, f)
    case Load(f) => At(s, f, Loaded(s.db.claims[s.finalisers[f].claim]))
    case Recheck(f) => if s.db.claims[s.finalisers[f].claim].status == Completed then Without(s, f) else At(s, f, Ready(s.finalisers[f].pc.snapshot))
    case Commit(f, newId, hash, cipher) =>
      var fin := s.finalisers[f];
      var done := CompleteBatch(s.db, fin.claim, fin.pc.snapshot, newId, fin.capture, hash, cipher);
      if done.Some? then At(s, f, Committed).(db := done.value) else At(s, f, Failing)
    case Confirm(f) => if s.db.claims[s.finalisers[f].claim].status == Completed then Without(s, f) else At(s, f, Failing)
    case Throw(f) => At(s, f, Failing)
    case Free(f) => Without(s, f).(db := Release(s.db, s.finalisers[f].claim))
    case Die(f) => Without(s, f)
  }

  /** `completed` is never left, whatever finalisers do and whenever: only an acknowledgement touches a completed claim. */
  lemma CompletedStays(shop: Shop, s: State, step: Step, id: int)
    requires Possible(shop, s, step) && id in s.db.claims && s.db.claims[id].status == Completed
    ensures id in Apply(shop, s, step).db.claims
    ensures var c, after := s.db.claims[id], Apply(shop, s, step).db.claims[id];
            && after == (if step.Ack? && step.id == id && c.entitlement.Some? then c.(deliveredAt := after.deliveredAt, cipher := None) else c)
            && (c.cipher.Some? && after.cipher.None? ==> step.Ack? && step.id == id)
            && (c.deliveredAt.Some? ==> after.deliveredAt == c.deliveredAt)
  {
  }

  // ------------------------------------------------------------------ the lease protects the claim

  predicate FinaliserSound(s: State, fin: Finaliser) {
    && fin.claim in s.db.claims && s.db.claims[fin.claim].order == Some(fin.order) && (fin.claim, fin.order, fin.capture) in s.paid
    && (fin.pc.Starting? || fin.startedAt <= s.clock)
    && (fin.pc.Loaded? || fin.pc.Ready? ==> fin.pc.snapshot.order == Some(fin.order))
    && (fin.pc.Committed? ==> s.db.claims[fin.claim].status == Completed)
    && (Live(s, fin) ==> (fin.pc.Failing? && s.db.claims[fin.claim].status == Completed)
                         || (s.db.claims[fin.claim].status == Processing && s.db.claims[fin.claim].startedAt == Some(fin.startedAt)))
  }

  /** Two finalisers within their leases never hold the same unfinished claim. */
  predicate OneHolder(s: State) {
    forall f, g :: f in s.finalisers && g in s.finalisers && f != g && Live(s, s.finalisers[f]) && Live(s, s.finalisers[g])
      && s.finalisers[f].claim == s.finalisers[g].claim && s.finalisers[f].claim in s.db.claims
      ==> s.db.claims[s.finalisers[f].claim].status == Completed
  }

  /** Every completed claim was paid for with a verified capture of its own order. */
  ghost predicate Paid(s: State) {
    forall id, e :: Owns(s.db, id, e) ==> (id, s.db.entitlements[e].order, s.db.entitlements[e].capture) in s.paid
  }

  ghost predicate Inv(s: State) {
    && Paired(s.db) && Paid(s) && OneHolder(s)
    && forall f :: f in s.finalisers ==> FinaliserSound(s, s.finalisers[f])
  }

  /** What other finalisers rely on: a claim inside someone's lease is left alone, a recorded order stays. */
  predicate Respects(clock: int, before: Claim, after: Claim) {
    && (before.order.Some? ==> after.order == before.order)
    && (before.status == Completed <==> after.status == Completed)
    && (before.status == Processing && before.startedAt.Some? && clock <= before.startedAt.value + LEASE ==> after == before)
  }

  lemma RespectKeepsFinaliser(s: State, next: State, fin: Finaliser)
    requires FinaliserSound(s, fin) && next.clock == s.clock && s.paid <= next.paid
    requires fin.claim in next.db.claims && Respects(s.clock, s.db.claims[fin.claim], next.db.claims[fin.claim])
    ensures FinaliserSound(next, fin)
  {
  }

  /** A statement that respects every claim and creates no pairing. */
  ghost predicate RespectsAll(clock: int, db: Db, next: Db) {
    && (forall id :: id in db.claims ==> id in next.claims && Respects(clock, db.claims[id], next.claims[id]))
    && forall id, e :: Owns(next, id, e) ==> Owns(db, id, e) && next.entitlements[e].capture == db.entitlements[e].capture
  }

  /** Statements that complete nothing and respect every claim keep the invariant. */
  lemma RespectKeepsInv(s: State, next: Db)
    requires Inv(s) && Paired(next) && RespectsAll(s.clock, s.db, next)
    ensures Inv(s.(db := next))
  {
    forall f | f in s.finalisers ensures FinaliserSound(s.(db := next), s.finalisers[f]) {
      RespectKeepsFinaliser(s, s.(db := next), s.finalisers[f]);
    }
  }

  predicate FreshClaim(claim: Claim) {
    claim.status == Creating && claim.order.None? && claim.entitlement.None? && claim.cipher.None?
  }

  lemma InsertKeepsPairing(db: Db, id: int, claim: Claim)
    requires Paired(db) && id !in db.claims && FreshClaim(claim)
    ensures Paired(SetClaim(db, id, claim))
  {
    var next := SetClaim(db, id, claim);
    forall k | k in next.claims ensures ClaimSound(next, k) {
      if k != id {
        assert ClaimSound(db, k);
        if db.claims[k].status == Completed { assert Owns(next, k, db.claims[k].entitlement.value); }
      }
    }
    forall e | e in next.entitlements ensures exists k :: Owns(next, k, e) {
      var k :| Owns(db, k, e);
      assert Owns(next, k, e);
    }
  }

  lemma InsertRespects(clock: int, db: Db, id: int, claim: Claim)
    requires id !in db.claims && FreshClaim(claim)
    ensures RespectsAll(clock, db, SetClaim(db, id, claim))
  {
  }

  lemma CleanRespects(clock: int, db: Db, now: int)
    requires Paired(db) && now <= clock
    ensures RespectsAll(clock, db, Cleanup(db, now))
  {
    var next := Cleanup(db, now);
    forall id | id in db.claims ensures id in next.claims && Respects(clock, db.claims[id], next.claims[id]) {
      assert next.claims[id] == CleanedClaim(db.claims[id], now);
      assert ClaimSound(db, id);
    }
    forall id, e | Owns(next, id, e) ensures Owns(db, id, e) {
      assert next.claims[id] == CleanedClaim(db.claims[id], now);
    }
  }

  /** Changing one claim in a way that respects it and does not complete it. */
  lemma OneClaimRespects(clock: int, db: Db, next: Db, id: int)
    requires OnlyClaim(db, next, id) && id in db.claims && Respects(clock, db.claims[id], next.claims[id])
    requires next.claims[id].entitlement == db.claims[id].entitlement
    requires next.claims[id].order == db.claims[id].order || next.claims[id].status != Completed
    ensures RespectsAll(clock, db, next)
  {
  }

  lemma SameRespects(clock: int, db: Db)
    ensures RespectsAll(clock, db, db)
  {
  }

  lemma MarkStatusKeepsInv(s: State, id: int, to: Status)
    requires Inv(s) && to in {Failed, Cancelled}
    ensures Inv(s.(db := MarkStatus(s.db, id, {Creating, Pending}, to)))
  {
    var next := MarkStatus(s.db, id, {Creating, Pending}, to);
    StatementsKeepPairing(s.db, id, 0, 0, 0, {Creating, Pending}, to);
    if next == s.db { SameRespects(s.clock, s.db); } else { OneClaimRespects(s.clock, s.db, next, id); }
    RespectKeepsInv(s, next);
  }

  lemma MarkPendingKeepsInv(s: State, id: int, order: int)
    requires Inv(s)
    ensures Inv(s.(db := MarkPending(s.db, id, order)))
  {
    var next := MarkPending(s.db, id, order);
    StatementsKeepPairing(s.db, id, order, 0, 0, {Creating, Pending}, Failed);
    if next == s.db {
      SameRespects(s.clock, s.db);
    } else {
      assert ClaimSound(s.db, id);
      OneClaimRespects(s.clock, s.db, next, id);
    }
    RespectKeepsInv(s, next);
  }

  lemma AcknowledgeKeepsInv(s: State, id: int, at: int)
    requires Inv(s)
    ensures Inv(s.(db := Acknowledge(s.db, id, at)))
  {
    if id in s.db.claims && s.db.claims[id].status == Completed && s.db.claims[id].entitlement.Some? {
      var next := Acknowledge(s.db, id, at);
      AcknowledgeKeepsPairing(s.db, id, at);
      OneClaimRespects(s.clock, s.db, next, id);
      RespectKeepsInv(s, next);
    }
  }

  lemma RevokeKeepsInv(s: State, e: int)
    requires Inv(s) && e in s.db.entitlements
    ensures Inv(s.(db := s.db.(entitlements := s.db.entitlements[e := s.db.entitlements[e].(active := false)])))
  {
    var next := s.db.(entitlements := s.db.entitlements[e := s.db.entitlements[e].(active := false)]);
    RevokeKeepsPairing(s.db, e);
    RespectKeepsInv(s, next);
  }

  lemma RevokeKeepsPairing(db: Db, e: int)
    requires Paired(db) && e in db.entitlements
    ensures Paired(db.(entitlements := db.entitlements[e := db.entitlements[e].(active := false)]))
  {
    var next := db.(entitlements := db.entitlements[e := db.entitlements[e].(active := false)]);
    forall k | k in next.claims ensures ClaimSound(next, k) {
      assert ClaimSound(db, k);
      if db.claims[k].status == Completed { assert Owns(next, k, db.claims[k].entitlement.value); }
    }
    forall x | x in next.entitlements ensures exists k :: Owns(next, k, x) {
      var k :| Owns(db, k, x);
      assert Owns(next, k, x);
    }
  }

  lemma TickKeepsInv(s: State, to: int)
    requires Inv(s) && to >= s.clock
    ensures Inv(s.(clock := to))
  {
    var next := s.(clock := to);
    forall f | f in next.finalisers ensures FinaliserSound(next, next.finalisers[f]) {
      assert FinaliserSound(s, s.finalisers[f]);
      assert Live(next, s.finalisers[f]) ==> Live(s, s.finalisers[f]);
    }
  }

  /** A finaliser may always stop, or move on without touching the tables, as long as it stays sound. */
  lemma OwnMoveKeepsInv(s: State, f: int, moved: Finaliser)
    requires Inv(s) && f in s.finalisers && FinaliserSound(s, moved) && moved.claim == s.finalisers[f].claim
    requires Live(s, moved) ==> Live(s, s.finalisers[f]) || s.db.claims[moved.claim].status == Completed
    ensures Inv(s.(finalisers := s.finalisers[f := moved]))
  {
  }

  lemma StopKeepsInv(s: State, f: int)
    requires Inv(s)
    ensures Inv(Without(s, f))
  {
  }

  lemma StartKeepsInv(shop: Shop, s: State, step: Step)
    requires Inv(s) && step.Start? && Enabled(shop, s, step)
    ensures Inv(Apply(shop, s, step))
  {
    var next := Apply(shop, s, step);
    forall g | g in next.finalisers ensures FinaliserSound(next, next.finalisers[g]) {
      if g != step.f { assert FinaliserSound(s, s.finalisers[g]); }
    }
  }

  // ------------------------------------------------------------------ taking, completing and releasing a claim

  /** A claim inside somebody's lease cannot be taken. */
  lemma LeaseRespects(s: State, id: int, now: int)
    requires Paired(s.db) && id in s.db.claims && MayBegin(s.db.claims[id], now) && now <= s.clock
    ensures RespectsAll(s.clock, s.db, Begin(s.db, id, now).0) && Paired(Begin(s.db, id, now).0)
  {
    assert ClaimSound(s.db, id);
    StatementsKeepPairing(s.db, id, 0, now, 0, {Creating, Pending}, Failed);
    OneClaimRespects(s.clock, s.db, Begin(s.db, id, now).0, id);
  }

  lemma LeaseKeepsInv(s: State, f: int, now: int)
    requires Inv(s) && f in s.finalisers && s.finalisers[f].pc.Starting? && now <= s.clock
    ensures var fin, begun := s.finalisers[f], Begin(s.db, s.finalisers[f].claim, now);
            begun.1 ==> Inv(s.(db := begun.0, finalisers := s.finalisers[f := fin.(startedAt := now, pc := Leased)]))
  {
    var fin := s.finalisers[f];
    assert FinaliserSound(s, fin);
    if MayBegin(s.db.claims[fin.claim], now) {
      LeaseRespects(s, fin.claim, now);
      var taken := s.(db := Begin(s.db, fin.claim, now).0);
      NobodyElseHolds(s, fin.claim, now);
      RespectKeepsInv(s, taken.db);
      forall g | g in s.finalisers && s.finalisers[g].claim == fin.claim ensures !Live(taken, s.finalisers[g]) {
        assert FinaliserSound(s, s.finalisers[g]);
      }
      assert FinaliserSound(taken, fin);
      TakeKeepsInv(taken, f, fin.(startedAt := now, pc := Leased));
    }
  }

  lemma NobodyElseHolds(s: State, id: int, now: int)
    requires Inv(s) && id in s.db.claims && MayBegin(s.db.claims[id], now) && now <= s.clock
    ensures forall g :: g in s.finalisers && s.finalisers[g].claim == id ==> !Live(s, s.finalisers[g])
  {
    forall g | g in s.finalisers && s.finalisers[g].claim == id ensures !Live(s, s.finalisers[g]) {
      assert FinaliserSound(s, s.finalisers[g]);
    }
  }

  lemma TakeKeepsInv(s: State, f: int, taken: Finaliser)
    requires Inv(s) && FinaliserSound(s, taken) && f in s.finalisers
    requires forall g :: g in s.finalisers && s.finalisers[g].claim == taken.claim ==> !Live(s, s.finalisers[g])
    ensures Inv(s.(finalisers := s.finalisers[f := taken]))
  {
  }

  /** After the holder of a claim has changed it, every other finaliser is still sound. */
  lemma HolderMayChange(s: State, next: Db, f: int, g: int)
    requires Inv(s) && f in s.finalisers && g in s.finalisers && g != f && Live(s, s.finalisers[f])
    requires s.finalisers[f].claim in next.claims && s.db.claims[s.finalisers[f].claim].status == Processing
    requires next.claims.Keys == s.db.claims.Keys && next.claims[s.finalisers[f].claim].order == s.db.claims[s.finalisers[f].claim].order
    requires forall k :: k in s.db.claims && k != s.finalisers[f].claim ==> next.claims[k] == s.db.claims[k]
    ensures FinaliserSound(s.(db := next), s.finalisers[g])
    ensures s.finalisers[g].claim == s.finalisers[f].claim ==> !Live(s, s.finalisers[g])
  {
    assert FinaliserSound(s, s.finalisers[f]) && FinaliserSound(s, s.finalisers[g]);
  }

  lemma FreeKeepsInv(s: State, f: int)
    requires Inv(s) && Acts(s, f) && s.finalisers[f].pc.Failing?
    ensures Inv(Without(s, f).(db := Release(s.db, s.finalisers[f].claim)))
  {
    var id := s.finalisers[f].claim;
    assert FinaliserSound(s, s.finalisers[f]) && ClaimSound(s.db, id);
    if s.db.claims[id].status == Processing {
      UnfinishedClaimKeepsPairing(s.db, Release(s.db, id), id);
      ReleasedKeepsInv(s, Release(s.db, id), f);
    } else {
      StopKeepsInv(s, f);
    }
  }

  lemma ReleasedKeepsInv(s: State, next: Db, f: int)
    requires Inv(s) && f in s.finalisers && Live(s, s.finalisers[f]) && Paired(next)
    requires s.finalisers[f].claim in s.db.claims && s.db.claims[s.finalisers[f].claim].status == Processing
    requires OnlyClaim(s.db, next, s.finalisers[f].claim) && next.claims[s.finalisers[f].claim].order == s.db.claims[s.finalisers[f].claim].order
    requires next.claims[s.finalisers[f].claim].status != Completed
    ensures Inv(Without(s, f).(db := next))
  {
    var left := Without(s, f).(db := next);
    forall g | g in left.finalisers ensures FinaliserSound(left, left.finalisers[g]) {
      HolderMayChange(s, next, f, g);
      assert FinaliserSound(s.(db := next), s.finalisers[g]);
    }
  }

  lemma CommitKeepsInv(s: State, f: int, newId: int, hash: int, cipher: int)
    requires Inv(s) && Acts(s, f) && s.finalisers[f].pc.Ready? && s.finalisers[f].pc.snapshot.order.Some? && newId !in s.db.entitlements
    ensures var fin := s.finalisers[f];
            var done := CompleteBatch(s.db, fin.claim, fin.pc.snapshot, newId, fin.capture, hash, cipher);
            Inv(if done.Some? then At(s, f, Committed).(db := done.value) else At(s, f, Failing))
  {
    var fin := s.finalisers[f];
    assert FinaliserSound(s, fin);
    var done := CompleteBatch(s.db, fin.claim, fin.pc.snapshot, newId, fin.capture, hash, cipher);
    if done.Some? {
      BatchKeepsPairingIffProcessing(s.db, fin.claim, fin.pc.snapshot, newId, fin.capture, hash, cipher);
      CommittedKeepsInv(s, f, done.value, newId);
    } else {
      OwnMoveKeepsInv(s, f, fin.(pc := Failing));
    }
  }

  lemma CommittedKeepsInv(s: State, f: int, next: Db, newId: int)
    requires Inv(s) && f in s.finalisers && Live(s, s.finalisers[f]) && newId !in s.db.entitlements && Paired(next)
    requires var fin := s.finalisers[f];
             && fin.claim in s.db.claims && s.db.claims[fin.claim].status == Processing
             && next.claims.Keys == s.db.claims.Keys && (forall k :: k in s.db.claims && k != fin.claim ==> next.claims[k] == s.db.claims[k])
             && Owns(next, fin.claim, newId) && next.entitlements[newId] == Entitlement(fin.order, fin.capture, next.entitlements[newId].hash, true)
             && (forall e :: e in s.db.entitlements ==> e in next.entitlements && next.entitlements[e] == s.db.entitlements[e])
    ensures Inv(At(s, f, Committed).(db := next))
  {
    var fin, after := s.finalisers[f], At(s, f, Committed).(db := next);
    assert FinaliserSound(s, fin);
    forall g | g in s.finalisers ensures FinaliserSound(after, after.finalisers[g]) {
      if g != f {
        HolderMayChange(s, next, f, g);
        assert FinaliserSound(s.(db := next), s.finalisers[g]);
      }
    }
    forall id, e | Owns(next, id, e) ensures (id, next.entitlements[e].order, next.entitlements[e].capture) in s.paid {
      if id != fin.claim {
        assert ClaimSound(s.db, id);
        assert Owns(s.db, id, e);
      }
    }
  }

  /** Every step of every finaliser and of every other request keeps the invariant. */
  lemma StepKeepsInv(shop: Shop, s: State, step: Step)
    requires Inv(s) && Enabled(shop, s, step)
    ensures Inv(Apply(shop, s, step))
  {
    match step {
      case Tick(to) => TickKeepsInv(s, to);
      case Insert(id, claim) =>
        InsertKeepsPairing(s.db, id, claim);
        InsertRespects(s.clock, s.db, id, claim);
        RespectKeepsInv(s, SetClaim(s.db, id, claim));
      case Pend(id, order) => MarkPendingKeepsInv(s, id, order);
      case Fail(id) => MarkStatusKeepsInv(s, id, Failed);
      case Cancel(id) => MarkStatusKeepsInv(s, id, Cancelled);
      case Ack(id, at) => AcknowledgeKeepsInv(s, id, at);
      case Clean(now) =>
        CleanupKeepsPairing(s.db, now);
        CleanRespects(s.clock, s.db, now);
        RespectKeepsInv(s, Cleanup(s.db, now));
      case Revoke(e) => RevokeKeepsInv(s, e);
      case Start(_, _, _) => StartKeepsInv(shop, s, step);
      case Commit(f, newId, hash, cipher) => CommitKeepsInv(s, f, newId, hash, cipher);
      case Lease(f, now) =>
        LeaseKeepsInv(s, f, now);
        StopKeepsInv(s, f);
      case Free(f) => FreeKeepsInv(s, f);
      case Die(f) => StopKeepsInv(s, f);
      case _ => MoveKeepsInv(shop, s, step);
    }
  }

  lemma MoveKeepsInv(shop: Shop, s: State, step: Step)
    requires Inv(s) && Enabled(shop, s, step) && (step.Load? || step.Recheck? || step.Confirm? || step.Throw?)
    ensures Inv(Apply(shop, s, step))
  {
    var fin := s.finalisers[step.f];
    assert FinaliserSound(s, fin);
    StopKeepsInv(s, step.f);
    match step {
      case Load(f) => OwnMoveKeepsInv(s, f, fin.(pc := Loaded(s.db.claims[fin.claim])));
      case Recheck(f) => OwnMoveKeepsInv(s, f, fin.(pc := Ready(fin.pc.snapshot)));
      case Confirm(f) => OwnMoveKeepsInv(s, f, fin.(pc := Failing));
      case Throw(f) => OwnMoveKeepsInv(s, f, fin.(pc := Failing));
      case _ =>
    }
  }

  // ------------------------------------------------------------------ whole runs

  predicate IsRun(shop: Shop, run: seq<State>, steps: seq<Step>) {
    && |run| == |steps| + 1
    && forall i {:trigger steps[i]} :: 0 <= i < |steps| ==> Enabled(shop, run[i], steps[i]) && run[i + 1] == Apply(shop, run[i], steps[i])
  }

  function EmptyState(clock: int): State { State(Db(map[], map[], {}), clock, map[], {}) }

  lemma {:induction false} RunKeepsInv(shop: Shop, run: seq<State>, steps: seq<Step>, i: nat)
    requires IsRun(shop, run, steps) && Inv(run[0]) && i < |run|
    ensures Inv(run[i])
  {
    if i > 0 {
      RunKeepsInv(shop, run, steps, i - 1);
      assert run[i] == Apply(shop, run[i - 1], steps[i - 1]);
      StepKeepsInv(shop, run[i - 1], steps[i - 1]);
    }
  }

  /**
    In every interleaving of finalisers, cancellation, failure, expiry, cleanup and refunds, when no finaliser acts
    after its lease: an order has an entitlement exactly when its claim is completed, the claim names it, it was
    verified as paid, and the recovery code of a completed claim is gone only once acknowledged.
  */
  lemma EntitledExactlyWhenCompleted(shop: Shop, run: seq<State>, steps: seq<Step>, i: nat, id: int, order: int)
    requires IsRun(shop, run, steps) && run[0] == EmptyState(run[0].clock) && i < |run|
    requires id in run[i].db.claims && run[i].db.claims[id].order == Some(order)
    ensures run[i].db.claims[id].status == Completed <==> exists e :: e in run[i].db.entitlements && run[i].db.entitlements[e].order == order
    ensures forall e :: e in run[i].db.entitlements && run[i].db.entitlements[e].order == order ==>
              run[i].db.claims[id].entitlement == Some(e) && (id, order, run[i].db.entitlements[e].capture) in run[i].paid
    ensures run[i].db.claims[id].status == Completed && run[i].db.claims[id].cipher.None? ==> run[i].db.claims[id].deliveredAt.Some?
  {
    RunKeepsInv(shop, run, steps, i);
    var s := run[i];
    EntitledIffCompleted(s.db, id, order);
    assert ClaimSound(s.db, id);
    forall e | e in s.db.entitlements && s.db.entitlements[e].order == order ensures (id, order, s.db.entitlements[e].capture) in s.paid {
      assert Owns(s.db, id, e);
    }
  }

  // ------------------------------------------------------------------ what a late finaliser breaks

  /** An entitlement left behind by an unfinished claim makes every batch for its order fail. */
  lemma OrphanBlocksOrder(db: Db, id: int, snapshot: Claim, orphan: int, newId: int, capture: int, hash: int, cipher: int)
    requires orphan in db.entitlements && snapshot.order == Some(db.entitlements[orphan].order) && newId !in db.entitlements
    ensures CompleteBatch(db, id, snapshot, newId, capture, hash, cipher).None?
  {
    assert Clashes(db, newId, Entitlement(snapshot.order.value, capture, hash, true));
  }

  /**
    The lease is needed. A finaliser that fails after its lease releases a claim another one has taken over; the
    other's batch then adds the entitlement without completing the claim, and the claim can never complete.
  */
  lemma LateReleaseOrphansEntitlement(order: int, capture: int, hash: int, cipher: int, first: int)
    ensures var claim := Claim(Pending, Some(order), 1, first + 1000, None, None, None, None);
            var leased := Begin(Db(map[7 := claim], map[], {}), 7, first);
            var takenOver := Begin(leased.0, 7, first + LEASE + 1);
            var released := Release(takenOver.0, 7);
            var batch := CompleteBatch(released, 7, takenOver.0.claims[7], 9, capture, hash, cipher);
            && leased.1 && takenOver.1 && batch.Some?
            && batch.value.claims[7].status == Pending && 9 in batch.value.entitlements && batch.value.entitlements[9].order == order
            && !Paired(batch.value)
  {
    var claim := Claim(Pending, Some(order), 1, first + 1000, None, None, None, None);
    var takenOver := Begin(Begin(Db(map[7 := claim], map[], {}), 7, first).0, 7, first + LEASE + 1).0;
    var released := Release(takenOver, 7);
    assert !Clashes(released, 9, Entitlement(order, capture, hash, true));
    var after := CompleteBatch(released, 7, takenOver.claims[7], 9, capture, hash, cipher).value;
    assert after.claims.Keys == {7};
    assert forall k :: !Owns(after, k, 9);
  }

  /** What holds even when finalisers act late: recorded orders stay, and snapshots name the claim's order. */
  predicate OrdersKept(s: State) {
    && (forall id :: id in s.db.claims && s.db.claims[id].order.Some? ==> s.db.claims[id].status != Creating)
    && forall f :: f in s.finalisers ==>
         var fin := s.finalisers[f];
         && fin.claim in s.db.claims && s.db.claims[fin.claim].order == Some(fin.order)
         && (fin.pc.Loaded? || fin.pc.Ready? ==> fin.pc.snapshot.order == Some(fin.order))
  }

  lemma OrderStaysAnyTime(shop: Shop, s: State, step: Step, id: int)
    requires OrdersKept(s) && Possible(shop, s, step) && id in s.db.claims && s.db.claims[id].order.Some?
    ensures id in Apply(shop, s, step).db.claims && Apply(shop, s, step).db.claims[id].order == s.db.claims[id].order
    ensures Apply(shop, s, step).db.claims[id].status != Creating
  {
  }

  lemma NewClaimsAreFresh(shop: Shop, s: State, step: Step, id: int)
    requires OrdersKept(s) && Possible(shop, s, step) && id in Apply(shop, s, step).db.claims
    requires id !in s.db.claims || s.db.claims[id].order.None?
    ensures Apply(shop, s, step).db.claims[id].order.Some? ==> Apply(shop, s, step).db.claims[id].status != Creating
  {
  }

  lemma OrdersKeptStep(shop: Shop, s: State, step: Step)
    requires OrdersKept(s) && Possible(shop, s, step)
    ensures OrdersKept(Apply(shop, s, step))
  {
    var next := Apply(shop, s, step);
    forall id | id in next.db.claims && next.db.claims[id].order.Some? ensures next.db.claims[id].status != Creating {
      if id in s.db.claims && s.db.claims[id].order.Some? { OrderStaysAnyTime(shop, s, step, id); } else { NewClaimsAreFresh(shop, s, step, id); }
    }
    forall f | f in next.finalisers
      ensures var fin := next.finalisers[f];
              && fin.claim in next.db.claims && next.db.claims[fin.claim].order == Some(fin.order)
              && (fin.pc.Loaded? || fin.pc.Ready? ==> fin.pc.snapshot.order == Some(fin.order))
    {
      FinaliserKept(shop, s, step, f);
    }
  }

  lemma FinaliserKept(shop: Shop, s: State, step: Step, f: int)
    requires OrdersKept(s) && Possible(shop, s, step) && f in Apply(shop, s, step).finalisers
    ensures var next := Apply(shop, s, step);
            var fin := next.finalisers[f];
            && fin.claim in next.db.claims && next.db.claims[fin.claim].order == Some(fin.order)
            && (fin.pc.Loaded? || fin.pc.Ready? ==> fin.pc.snapshot.order == Some(fin.order))
  {
    var fin := Apply(shop, s, step).finalisers[f];
    if step.Start? && step.f == f {
      OrderStaysAnyTime(shop, s, step, step.id);
    } else {
      assert f in s.finalisers && fin.claim == s.finalisers[f].claim && fin.order == s.finalisers[f].order;
      OrderStaysAnyTime(shop, s, step, fin.claim);
    }
  }

  /** The claim's order has an entitlement although the claim is not completed. */
  predicate Orphaned(s: State, id: int, order: int) {
    && id in s.db.claims && s.db.claims[id].order == Some(order) && s.db.claims[id].status != Completed
    && exists e :: e in s.db.entitlements && s.db.entitlements[e].order == order
  }

  lemma OrphanedStays(shop: Shop, s: State, step: Step, id: int, order: int)
    requires OrdersKept(s) && Possible(shop, s, step) && Orphaned(s, id, order)
    ensures Orphaned(Apply(shop, s, step), id, order)
  {
    var e :| e in s.db.entitlements && s.db.entitlements[e].order == order;
    OrderStaysAnyTime(shop, s, step, id);
    if step.Commit? {
      var fin := s.finalisers[step.f];
      if fin.claim == id { OrphanBlocksOrder(s.db, id, fin.pc.snapshot, e, step.newId, fin.capture, step.hash, step.cipher); }
    }
    EntitlementStays(shop, s, step, e);
  }

  lemma EntitlementStays(shop: Shop, s: State, step: Step, e: int)
    requires Possible(shop, s, step) && e in s.db.entitlements
    ensures e in Apply(shop, s, step).db.entitlements && Apply(shop, s, step).db.entitlements[e].order == s.db.entitlements[e].order
  {
  }

  /** A run in which finalisers may act after their leases. */
  predicate IsLateRun(shop: Shop, run: seq<State>, steps: seq<Step>) {
    && |run| == |steps| + 1
    && forall i {:trigger steps[i]} :: 0 <= i < |steps| ==> Possible(shop, run[i], steps[i]) && run[i + 1] == Apply(shop, run[i], steps[i])
  }

  lemma {:induction false} LateRunKeepsOrders(shop: Shop, run: seq<State>, steps: seq<Step>, i: nat)
    requires IsLateRun(shop, run, steps) && run[0] == EmptyState(run[0].clock) && i < |run|
    ensures OrdersKept(run[i])
  {
    if i > 0 {
      LateRunKeepsOrders(shop, run, steps, i - 1);
      assert run[i] == Apply(shop, run[i - 1], steps[i - 1]);
      OrdersKeptStep(shop, run[i - 1], steps[i - 1]);
    }
  }

  /** Once an order has an entitlement but no completed claim, its claim can never complete, whatever anybody does and whenever. */
  lemma {:induction false} OrphanNeverCompletes(shop: Shop, run: seq<State>, steps: seq<Step>, i: nat, j: nat, id: int, order: int)
    requires IsLateRun(shop, run, steps) && run[0] == EmptyState(run[0].clock) && i <= j < |run|
    requires Orphaned(run[i], id, order)
    ensures Orphaned(run[j], id, order)
  {
    if i < j {
      OrphanNeverCompletes(shop, run, steps, i, j - 1, id, order);
      LateRunKeepsOrders(shop, run, steps, j - 1);
      assert run[j] == Apply(shop, run[j - 1], steps[j - 1]);
      OrphanedStays(shop, run[j - 1], steps[j - 1], id, order);
    }
  }

  // ------------------------------------------------------------------ finalizePaidOrder among concurrent requests

  /** A recorded order stays with its claim. */
  lemma OrderStays(shop: Shop, s: State, step: Step, id: int)
    requires Inv(s) && Enabled(shop, s, step) && id in s.db.claims && s.db.claims[id].order.Some?
    ensures id in Apply(shop, s, step).db.claims && Apply(shop, s, step).db.claims[id].order == s.db.claims[id].order
  {
    assert ClaimSound(s.db, id);
    if step.Clean? { assert Apply(shop, s, step).db.claims[id] == CleanedClaim(s.db.claims[id], step.now); }
  }

  predicate IsStepOf(step: Step, f: int) {
    match step
    case Start(g, _, _) => g == f
    case Lease(g, _) => g == f
    case Load(g) => g == f
    case Recheck(g) => g == f
    case Commit(g, _, _, _) => g == f
    case Confirm(g) => g == f
    case Throw(g) => g == f
    case Free(g) => g == f
    case Die(g) => g == f
    case _ => false
  }

  lemma OthersLeave(shop: Shop, s: State, step: Step, f: int)
    requires Enabled(shop, s, step) && !IsStepOf(step, f)
    ensures f in Apply(shop, s, step).finalisers <==> f in s.finalisers
    ensures f in s.finalisers ==> Apply(shop, s, step).finalisers[f] == s.finalisers[f]
    ensures Apply(shop, s, step).clock >= s.clock && s.paid <= Apply(shop, s, step).paid
  {
  }

  lemma {:induction false} FreshKey(keys: set<int>) returns (key: int)
    ensures forall k :: k in keys ==> k < key
  {
    if keys == {} {
      key := 0;
    } else {
      HasLeast(keys);
      var least :| IsLeast(keys, least);
      var above := FreshKey(keys - {least});
      key := if least < above then above else least + 1;
      assert forall k :: k in keys ==> k == least || k in keys - {least};
    }
  }

  /** What one request may rely on while others run: finaliser `f` and the order of claim `id` are left alone, `completed` is never left. */
  predicate Untouched(before: State, after: State, f: int, id: int) {
    && (f in after.finalisers <==> f in before.finalisers) && (f in before.finalisers ==> after.finalisers[f] == before.finalisers[f])
    && before.clock <= after.clock && id in before.db.claims && id in after.db.claims && after.db.claims[id].order == before.db.claims[id].order
    && (before.db.claims[id].status == Completed ==>
          after.db.claims[id].status == Completed && after.db.claims[id].entitlement == before.db.claims[id].entitlement)
  }

  /** What the invariant says of one finaliser. */
  lemma FinaliserIs(s: State, f: int)
    requires Inv(s) && f in s.finalisers
    ensures var fin := s.finalisers[f];
            && (fin.pc.Loaded? || fin.pc.Ready? ==> fin.pc.snapshot.order == Some(fin.order))
            && (fin.pc.Committed? ==> fin.claim in s.db.claims && s.db.claims[fin.claim].status == Completed)
  {
    assert FinaliserSound(s, s.finalisers[f]);
  }

  class Service {
    const shop: Shop
    var s: State

    constructor (shop: Shop, clock: int)
      ensures Inv(s) && this.shop == shop && s == EmptyState(clock)
    {
      this.shop, s := shop, EmptyState(clock);
    }

    method Take(step: Step)
      requires Inv(s) && Enabled(shop, s, step)
      modifies this
      ensures Inv(s) && s == Apply(shop, old(s), step)
    {
      StepKeepsInv(shop, s, step);
      s := Apply(shop, s, step);
    }

    /** Any steps of other requests, while this one awaits. */
    method Others(f: int, id: int)
      requires Inv(s) && id in s.db.claims && s.db.claims[id].order.Some?
      modifies this
      ensures Inv(s) && Untouched(old(s), s, f, id)
    {
      hide Inv, Paired, Paid, OneHolder, FinaliserSound;
      var steps :| 0 <= steps;
      for i := 0 to steps
        invariant Inv(s) && Untouched(old(s), s, f, id)
      {
        var step: Step := *;
        if Enabled(shop, s, step) && !IsStepOf(step, f) {
          OthersLeave(shop, s, step, f);
          OrderStays(shop, s, step, id);
          if s.db.claims[id].status == Completed { CompletedStays(shop, s, step, id); }
          Take(step);
        }
      }
    }

    /** Give up once the lease is over. */
    method StillLeased(f: int) returns (leased: bool)
      requires Inv(s) && f in s.finalisers
      modifies this
      ensures Inv(s) && s == if leased then old(s) else Without(old(s), f)
      ensures leased ==> s.clock <= s.finalisers[f].startedAt + LEASE
    {
      leased := s.clock <= s.finalisers[f].startedAt + LEASE;
      if !leased { Take(Die(f)); }
    }

    /** The catch block: release the claim and report the failure. */
    method GiveBack(f: int, id: int)
      requires Inv(s) && f in s.finalisers && s.finalisers[f].pc.Failing? && s.finalisers[f].claim == id
      requires id in s.db.claims && s.db.claims[id].order.Some?
      modifies this
      ensures Inv(s) && f !in s.finalisers && id in s.db.claims && s.db.claims[id].order == old(s.db.claims[id].order)
    {
      hide Inv, Paired, Paid, OneHolder, FinaliserSound;
      Others(f, id);
      var leased := StillLeased(f);
      if leased { Take(Free(f)); }
    }

    /** The two reads before the batch; the finaliser is gone if its lease ran out or the claim is already completed. */
    method ReadTwice(f: int, id: int) returns (done: bool)
      requires Inv(s) && f in s.finalisers && s.finalisers[f].pc.Leased? && s.finalisers[f].claim == id
      requires id in s.db.claims && s.db.claims[id].order.Some?
      modifies this
      ensures Inv(s) && id in s.db.claims && s.db.claims[id].order == old(s.db.claims[id].order)
      ensures f in s.finalisers ==> s.finalisers[f].pc.Ready? && s.finalisers[f].claim == id
      ensures done ==> f !in s.finalisers && s.db.claims[id].status == Completed
    {
      hide Inv, Paired, Paid, OneHolder, FinaliserSound;
      Others(f, id);
      done := StillLeased(f);
      if !done { return; }
      Take(Load(f));
      Others(f, id);
      done := StillLeased(f);
      if !done { return; }
      Take(Recheck(f));
      done := f !in s.finalisers;
    }

    /** The batch, and the read that confirms it. */
    method CommitAndConfirm(f: int, id: int) returns (done: bool)
      requires Inv(s) && f in s.finalisers && s.finalisers[f].pc.Ready? && s.finalisers[f].claim == id
      requires id in s.db.claims && s.db.claims[id].order.Some?
      modifies this
      ensures Inv(s) && f !in s.finalisers && id in s.db.claims && s.db.claims[id].order == old(s.db.claims[id].order)
      ensures done ==> s.db.claims[id].status == Completed
    {
      hide Inv, Paired, Paid, OneHolder, FinaliserSound;
      Others(f, id);
      var leased := StillLeased(f);
      if !leased { return false; }
      FinaliserIs(s, f);
      ghost var unused := FreshKey(s.db.entitlements.Keys);
      assert unused !in s.db.entitlements;
      var newId :| newId !in s.db.entitlements;
      var hash: int, cipher: int := *, *;
      OrderStays(shop, s, Commit(f, newId, hash, cipher), id);
      Take(Commit(f, newId, hash, cipher));
      if s.finalisers[f].pc.Failing? {
        GiveBack(f, id);
        return false;
      }
      Others(f, id);
      FinaliserIs(s, f);
      Take(Confirm(f));
      done := true;
    }

    /** The leased part of the finalisation: false when it failed, was given back or ran out of time. */
    method CompleteCheckout(f: int, id: int) returns (done: bool)
      requires Inv(s) && f in s.finalisers && s.finalisers[f].pc.Leased? && s.finalisers[f].claim == id
      requires id in s.db.claims && s.db.claims[id].order.Some?
      modifies this
      ensures Inv(s) && f !in s.finalisers && id in s.db.claims && s.db.claims[id].order == old(s.db.claims[id].order)
      ensures done ==> s.db.claims[id].status == Completed
    {
      done := ReadTwice(f, id);
      if f in s.finalisers {
        done := CommitAndConfirm(f, id);
      }
    }

    /**
      `finalizePaidOrder`, interleaved with any other requests at every await. It returns a claim only when that
      claim is completed, for exactly this order; a payment that does not verify completes nothing.
    */
    method FinalizePaidOrder(f: int, id: int, claimOrder: Option<int>, order: PayPalOrder) returns (completed: Option<Claim>)
      requires Inv(s) && f !in s.finalisers && id in s.db.claims && (claimOrder.Some? ==> s.db.claims[id].order == claimOrder)
      modifies this
      ensures Inv(s) && f !in s.finalisers && id in s.db.claims
      ensures completed.Some? ==> completed.value == s.db.claims[id] && completed.value.status == Completed
      ensures old(s.db.claims[id].status) == Completed ==> completed == Some(old(s.db.claims[id]))
      ensures completed.Some? && old(s.db.claims[id].status) != Completed ==>
                claimOrder == Some(order.id) && s.db.claims[id].order == claimOrder && ValidateCompletedOrder(shop, order, id).Valid?
      ensures old(s.db.claims[id].status) != Completed && !ValidateCompletedOrder(shop, order, id).Valid? ==> s == old(s)
    {
      hide Inv, Paired, Paid, OneHolder, FinaliserSound;
      if s.db.claims[id].status == Completed { return Some(s.db.claims[id]); }
      if claimOrder != Some(order.id) || !ValidateCompletedOrder(shop, order, id).Valid? { return None; }
      Take(Start(f, id, order));
      Others(f, id);
      var startedAt := s.clock;
      Others(f, id);
      OrderStays(shop, s, Lease(f, startedAt), id);
      Take(Lease(f, startedAt));
      var finished := false;
      if f in s.finalisers {
        finished := CompleteCheckout(f, id);
      } else {
        Others(f, id);
        finished := s.db.claims[id].status == Completed;
      }
      completed := if finished then Some(s.db.claims[id]) else None;
    }
  }
}

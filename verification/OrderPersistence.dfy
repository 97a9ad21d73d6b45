/** Orders and their credentials as stored, under stale reads, full saves and guarded partial writes. */
module OrderPersistence {
  import opened OrderStatuses
  import opened Outcomes
  import opened Orders

  datatype Row = Row(
    status: OrderStatus, boosterId: Option<int>, summonerName: Option<string>, deadline: Option<int>,
    request: Option<int>, completedAt: Option<int>)

  /** A request's order in memory, and whether it is inside a save transaction. */
  datatype Session = Session(order: OrderState, saving: bool, rejectedBy: Option<int>)

  // A deleted credentials row stays locked by the deleting save until it commits.
  datatype Database = Database(
    orders: map<int, Row>, credentials: map<int, Credentials>, rejections: set<(int, int)>,
    credentialLocks: map<int, int>, sessions: map<int, Session>)

  datatype Step =
    | Create(session: int, orderId: int)
    | Read(session: int, orderId: int)
    | Act(session: int, call: Call)
    | SaveDelete(session: int, rejectedBy: Option<int>)
    | SaveUpsert(session: int)
    | SaveCredentials(session: int)

  function NonEmpty(s: string): Option<string> {
    if s == "" then None else Some(s)
  }

  function RowOf(o: OrderState): Row {
    match o.details
    case None => Row(o.status, o.boosterId, None, None, None, o.completedAt)
    case Some(d) => Row(o.status, o.boosterId, NonEmpty(d.summonerName), d.deadline, Some(d.rest), o.completedAt)
  }

  function Rehydrate(id: int, r: Row, stored: bool): OrderState {
    OrderState(
      id, r.boosterId, r.status, None, stored,
      match r.request
      case None => None
      case Some(rest) => Some(Details(match r.summonerName case None => "" case Some(n) => n, r.deadline, rest)),
      r.completedAt)
  }

  function Begin(db: Database, session: int, o: OrderState): Database {
    db.(sessions := db.sessions[session := Session(o, false, None)])
  }

  predicate LockedByOther(db: Database, session: int, orderId: int) {
    orderId in db.credentialLocks && db.credentialLocks[orderId] != session
  }

  predicate Idle(db: Database, session: int) {
    session in db.sessions ==> !db.sessions[session].saving
  }

  predicate InSave(db: Database, session: int) {
    session in db.sessions && db.sessions[session].saving
  }

  /** First statement of a save: delete the credentials unless the order in memory has some. */
  function DeleteForSave(db: Database, session: int, rejectedBy: Option<int>): Database
    requires session in db.sessions
  {
    var o := db.sessions[session].order;
    var started := db.(sessions := db.sessions[session := Session(o, true, rejectedBy)]);
    if !HasCredentials(o) && o.id in db.credentials then
      started.(credentialLocks := db.credentialLocks[o.id := session])
    else started
  }

  /** Second statement and commit: write the whole row, and the credentials if any are pending. */
  function UpsertAndCommit(db: Database, session: int): Database
    requires session in db.sessions
  {
    var s := db.sessions[session];
    var o := s.order;
    var kept := if o.id in db.credentialLocks then db.credentials - {o.id} else db.credentials;
    Database(
      db.orders[o.id := RowOf(o)],
      if o.pending.Some? then kept[o.id := o.pending.value] else kept,
      if s.rejectedBy.Some? then db.rejections + {(o.id, s.rejectedBy.value)} else db.rejections,
      db.credentialLocks - {o.id},
      db.sessions[session := s.(saving := false, rejectedBy := None)])
  }

  /** The credential fields alone, while the stored status still allows them. */
  function WriteCredentials(db: Database, session: int): Database
    requires session in db.sessions
  {
    var o := db.sessions[session].order;
    if o.pending.None? || o.id !in db.orders || !MayHoldCredentials(db.orders[o.id].status) then db
    else
      db.(
        orders := db.orders[o.id := db.orders[o.id].(
          summonerName := match o.details case None => None case Some(d) => NonEmpty(d.summonerName))],
        credentials := db.credentials[o.id := o.pending.value])
  }

  /** One statement. A statement that would wait for a lock leaves the database as it is. */
  function Next(db: Database, step: Step): Database {
    match step
    case Create(x, id) =>
      if !Idle(db, x) then db else Begin(db, x, OrderState(id, None, AwaitingPayment, None, false, None, None))
    case Read(x, id) =>
      if !Idle(db, x) || id !in db.orders then db
      else Begin(db, x, Rehydrate(id, db.orders[id], id in db.credentials))
    case Act(x, call) =>
      if x !in db.sessions || db.sessions[x].saving then db
      else
        (match Handle(db.sessions[x].order, call)
         case Ok(next) => Begin(db, x, next)
         case Err(_) => db)
    case SaveDelete(x, rejectedBy) =>
      if x !in db.sessions || db.sessions[x].saving || LockedByOther(db, x, db.sessions[x].order.id) then db
      else DeleteForSave(db, x, rejectedBy)
    case SaveUpsert(x) =>
      if !InSave(db, x) || LockedByOther(db, x, db.sessions[x].order.id) then db else UpsertAndCommit(db, x)
    case SaveCredentials(x) =>
      if x !in db.sessions || db.sessions[x].saving || LockedByOther(db, x, db.sessions[x].order.id) then db
      else WriteCredentials(db, x)
  }

  function Run(db: Database, steps: seq<Step>): Database
    decreases |steps|
  {
    if steps == [] then db else Run(Next(db, steps[0]), steps[1..])
  }

  /** No stored credentials for an order awaiting payment, completed or cancelled. */
  ghost predicate StoredRightly(db: Database) {
    forall id :: id in db.credentials ==> id in db.orders && MayHoldCredentials(db.orders[id].status)
  }

  /** Sessions hold credentials rightly; a lock belongs to a save that deletes an existing row. */
  ghost predicate SessionsValid(db: Database) {
    && (forall x :: x in db.sessions ==> HoldsRightly(db.sessions[x].order))
    && (forall id :: id in db.credentialLocks ==>
          InSave(db, db.credentialLocks[id]) && db.sessions[db.credentialLocks[id]].order.id == id
          && !HasCredentials(db.sessions[db.credentialLocks[id]].order))
  }

  /** The step ends a save and does not have to wait. */
  predicate Commits(db: Database, step: Step) {
    && step.SaveUpsert? && InSave(db, step.session)
    && !LockedByOther(db, step.session, db.sessions[step.session].order.id)
  }

  lemma NextKeepsSessions(db: Database, step: Step)
    requires SessionsValid(db) && StoredRightly(db)
    ensures SessionsValid(Next(db, step))
  {
    if step.Act? && step.session in db.sessions && Handle(db.sessions[step.session].order, step.call).Ok? {
      HandleHoldsRightly(db.sessions[step.session].order, step.call);
    }
  }

  // ---- writes that overtake a save ----

  /** The statement stores credentials: a partial write whose guard holds, or a save with pending ones. */
  predicate StoresCredentials(db: Database, step: Step) {
    || (Commits(db, step) && db.sessions[step.session].order.pending.Some?)
    || (&& step.SaveCredentials? && step.session in db.sessions && !db.sessions[step.session].saving
        && !LockedByOther(db, step.session, db.sessions[step.session].order.id)
        && db.sessions[step.session].order.pending.Some?
        && db.sessions[step.session].order.id in db.orders
        && MayHoldCredentials(db.orders[db.sessions[step.session].order.id].status))
  }

  /** The statement commits a save that deleted credentials and stores no others. */
  predicate DeletesCredentials(db: Database, step: Step) {
    && Commits(db, step) && db.sessions[step.session].order.pending.None?
    && db.sessions[step.session].order.id in db.credentialLocks
  }

  /** Saves of the order between their two statements that mean to leave it without credentials. */
  function SavesWithout(db: Database, id: int): set<int> {
    set x | x in db.sessions && db.sessions[x].saving && db.sessions[x].order.id == id
            && !HasCredentials(db.sessions[x].order)
  }

  /**
   * The saves that are overtaken: after their delete another request stored credentials of the order, and
   * no save has deleted them since.
   */
  function NextOvertaken(db: Database, over: set<int>, step: Step): set<int> {
    if StoresCredentials(db, step) then over + SavesWithout(db, db.sessions[step.session].order.id) - {step.session}
    else if DeletesCredentials(db, step) then over - SavesWithout(db, db.sessions[step.session].order.id)
    else if Commits(db, step) then over - {step.session}
    else over
  }

  /** What the events so far say about a save is what its commit will find. */
  ghost predicate Tracked(db: Database, over: set<int>) {
    forall x :: x in over <==>
      && InSave(db, x) && !HasCredentials(db.sessions[x].order) && db.sessions[x].order.id in db.credentials
      && !(db.sessions[x].order.id in db.credentialLocks && db.credentialLocks[db.sessions[x].order.id] == x)
  }

  lemma NextTracked(db: Database, over: set<int>, step: Step)
    requires SessionsValid(db) && Tracked(db, over)
    ensures Tracked(Next(db, step), NextOvertaken(db, over, step))
  {
    match step
    case Create(_, _) =>
    case Read(_, _) =>
    case Act(_, _) =>
    case SaveDelete(_, _) =>
    case SaveUpsert(_) =>
    case SaveCredentials(_) =>
  }

  /** An overtaken save does not commit a status that may not hold credentials. */
  predicate Unovertaken(db: Database, over: set<int>, step: Step) {
    Commits(db, step) && step.session in over ==> MayHoldCredentials(db.sessions[step.session].order.status)
  }

  /** A statement keeps the store right if and only if it is not the commit of an overtaken save. */
  lemma NextStoresRightlyIff(db: Database, over: set<int>, step: Step)
    requires SessionsValid(db) && StoredRightly(db) && Tracked(db, over)
    ensures StoredRightly(Next(db, step)) <==> Unovertaken(db, over, step)
  {
    if Commits(db, step) {
      var o := db.sessions[step.session].order;
      var after := Next(db, step);
      assert after.orders[o.id].status == o.status;
      if !Unovertaken(db, over, step) {
        assert o.id in after.credentials;
      }
    }
  }

  ghost predicate AlwaysRight(db: Database, steps: seq<Step>)
    decreases |steps|
  {
    StoredRightly(db) && (steps != [] ==> AlwaysRight(Next(db, steps[0]), steps[1..]))
  }

  predicate NeverOvertaken(db: Database, over: set<int>, steps: seq<Step>)
    decreases |steps|
  {
    steps != [] ==>
      && Unovertaken(db, over, steps[0])
      && NeverOvertaken(Next(db, steps[0]), NextOvertaken(db, over, steps[0]), steps[1..])
  }

  /**
   * Over every interleaving of statements, no order that may not have credentials has them stored if and
   * only if no save commits such an order after credentials of it were stored past its delete and kept.
   */
  lemma {:induction false} AlwaysRightIff(db: Database, over: set<int>, steps: seq<Step>)
    requires SessionsValid(db) && StoredRightly(db) && Tracked(db, over)
    ensures AlwaysRight(db, steps) <==> NeverOvertaken(db, over, steps)
    decreases |steps|
  {
    if steps != [] {
      var step := steps[0];
      NextKeepsSessions(db, step);
      NextTracked(db, over, step);
      NextStoresRightlyIff(db, over, step);
      if Unovertaken(db, over, step) {
        AlwaysRightIff(Next(db, step), NextOvertaken(db, over, step), steps[1..]);
      } else {
        assert !AlwaysRight(Next(db, step), steps[1..]);
      }
    }
  }

  /** Credentials are only stored while no other save is about to leave the same order without any. */
  predicate NoWriteBetween(db: Database, steps: seq<Step>)
    decreases |steps|
  {
    steps != [] ==>
      && (StoresCredentials(db, steps[0]) ==>
            SavesWithout(db, db.sessions[steps[0].session].order.id) <= {steps[0].session})
      && NoWriteBetween(Next(db, steps[0]), steps[1..])
  }

  /** Without a write between the statements of such a save the store is right throughout. */
  lemma {:induction false} NoWriteBetweenStoresRightly(db: Database, steps: seq<Step>)
    requires SessionsValid(db) && StoredRightly(db) && Tracked(db, {}) && NoWriteBetween(db, steps)
    ensures AlwaysRight(db, steps)
    decreases |steps|
  {
    if steps != [] {
      NextKeepsSessions(db, steps[0]);
      NextTracked(db, {}, steps[0]);
      NextStoresRightlyIff(db, {}, steps[0]);
      assert NextOvertaken(db, {}, steps[0]) == {};
      NoWriteBetweenStoresRightly(Next(db, steps[0]), steps[1..]);
    }
  }

  // ---- stored statuses ----

  /** Every stored status is the one before or follows from it. */
  ghost predicate StatusesFollow(follows: (OrderStatus, OrderStatus) -> bool, db: Database, after: Database) {
    forall id :: id in db.orders ==> id in after.orders && follows(db.orders[id].status, after.orders[id].status)
  }

  ghost predicate AlwaysFollow(follows: (OrderStatus, OrderStatus) -> bool, db: Database, steps: seq<Step>)
    decreases |steps|
  {
    steps != [] ==>
      StatusesFollow(follows, db, Next(db, steps[0])) && AlwaysFollow(follows, Next(db, steps[0]), steps[1..])
  }

  /** A save commits a status that follows from the one stored right then. */
  predicate SaveFollows(follows: (OrderStatus, OrderStatus) -> bool, db: Database, step: Step) {
    Commits(db, step) && db.sessions[step.session].order.id in db.orders ==>
      follows(db.orders[db.sessions[step.session].order.id].status, db.sessions[step.session].order.status)
  }

  predicate SavesFollow(follows: (OrderStatus, OrderStatus) -> bool, db: Database, steps: seq<Step>)
    decreases |steps|
  {
    steps != [] ==> SaveFollows(follows, db, steps[0]) && SavesFollow(follows, Next(db, steps[0]), steps[1..])
  }

  lemma NextFollowsIff(follows: (OrderStatus, OrderStatus) -> bool, db: Database, step: Step)
    requires forall status :: follows(status, status)
    ensures StatusesFollow(follows, db, Next(db, step)) <==> SaveFollows(follows, db, step)
  {
    if Commits(db, step) {
      var o := db.sessions[step.session].order;
      assert Next(db, step).orders == db.orders[o.id := RowOf(o)];
    } else {
      forall id | id in db.orders
        ensures id in Next(db, step).orders && Next(db, step).orders[id].status == db.orders[id].status
      {
        NoCommitKeepsStatus(db, step, id);
      }
    }
  }

  lemma NoCommitKeepsStatus(db: Database, step: Step, id: int)
    requires !Commits(db, step) && id in db.orders
    ensures id in Next(db, step).orders && Next(db, step).orders[id].status == db.orders[id].status
  {
  }

  /**
   * Over every run, stored statuses change only as `follows` allows (one transition, or several) if and only
   * if each committing save writes a status that follows from the row's current one.
   */
  lemma {:induction false} AlwaysFollowIff(
      follows: (OrderStatus, OrderStatus) -> bool, db: Database, steps: seq<Step>)
    requires forall status :: follows(status, status)
    ensures AlwaysFollow(follows, db, steps) <==> SavesFollow(follows, db, steps)
    decreases |steps|
  {
    if steps != [] {
      NextFollowsIff(follows, db, steps[0]);
      AlwaysFollowIff(follows, Next(db, steps[0]), steps[1..]);
    }
  }

  /**
   * The requests whose order is stale: another save of the order committed after they read it, or they
   * created it under an id that was taken. A read, or a save of their own, makes them current.
   */
  function NextStale(db: Database, stale: set<int>, step: Step): set<int> {
    match step
    case Create(x, id) => if !Idle(db, x) then stale else if id in db.orders then stale + {x} else stale - {x}
    case Read(x, id) => if Idle(db, x) && id in db.orders then stale - {x} else stale
    case SaveUpsert(x) =>
      if Commits(db, step) then
        stale + (set y | y in db.sessions && db.sessions[y].order.id == db.sessions[x].order.id) - {x}
      else stale
    case _ => stale
  }

  /** A current request's status is what the stored one can become. */
  ghost predicate Current(db: Database, stale: set<int>) {
    forall x :: x in db.sessions && x !in stale && db.sessions[x].order.id in db.orders ==>
      Reaches(db.orders[db.sessions[x].order.id].status, db.sessions[x].order.status)
  }

  lemma NextCurrent(db: Database, stale: set<int>, step: Step)
    requires Current(db, stale)
    ensures Current(Next(db, step), NextStale(db, stale, step))
  {
    match step
    case Create(_, _) =>
    case Read(_, _) =>
    case Act(x, call) =>
      if x in db.sessions && Handle(db.sessions[x].order, call).Ok? {
        HandleReaches(db.sessions[x].order, call);
      }
    case SaveDelete(_, _) =>
    case SaveUpsert(_) =>
    case SaveCredentials(_) =>
  }

  /** No other save of an order commits between a request's read of it and the request's own save. */
  predicate NeverStale(db: Database, stale: set<int>, steps: seq<Step>)
    decreases |steps|
  {
    steps != [] ==>
      && (Commits(db, steps[0]) ==> steps[0].session !in stale)
      && NeverStale(Next(db, steps[0]), NextStale(db, stale, steps[0]), steps[1..])
  }

  /** Then stored statuses follow the order entity's transitions over the whole run. */
  lemma {:induction false} CurrentSavesFollow(db: Database, stale: set<int>, steps: seq<Step>)
    requires Current(db, stale) && NeverStale(db, stale, steps)
    ensures AlwaysFollow(Reaches, db, steps)
    decreases |steps|
  {
    if steps != [] {
      ReachesReflexive();
      NextFollowsIff(Reaches, db, steps[0]);
      NextCurrent(db, stale, steps[0]);
      CurrentSavesFollow(Next(db, steps[0]), NextStale(db, stale, steps[0]), steps[1..]);
    }
  }

  /** The call moves the status of the request's order. */
  predicate Moves(db: Database, step: Step) {
    && step.Act? && step.session in db.sessions && !db.sessions[step.session].saving
    && Handle(db.sessions[step.session].order, step.call).Ok?
    && Handle(db.sessions[step.session].order, step.call).value.status != db.sessions[step.session].order.status
  }

  /** The requests that have moved their order's status since they read or saved it. */
  function NextMoved(db: Database, moved: set<int>, step: Step): set<int> {
    match step
    case Create(x, _) => if Idle(db, x) then moved - {x} else moved
    case Read(x, id) => if Idle(db, x) && id in db.orders then moved - {x} else moved
    case Act(x, _) => if Moves(db, step) then moved + {x} else moved
    case SaveUpsert(x) => if Commits(db, step) then moved - {x} else moved
    case _ => moved
  }

  ghost predicate CurrentDirectly(db: Database, stale: set<int>, moved: set<int>) {
    forall x :: x in db.sessions && x !in stale && db.sessions[x].order.id in db.orders ==>
      var row := db.orders[db.sessions[x].order.id];
      Directly(row.status, db.sessions[x].order.status)
      && (x in moved || row.status == db.sessions[x].order.status)
  }

  lemma NextCurrentDirectly(db: Database, stale: set<int>, moved: set<int>, step: Step)
    requires CurrentDirectly(db, stale, moved) && (Moves(db, step) ==> step.session !in moved)
    ensures CurrentDirectly(Next(db, step), NextStale(db, stale, step), NextMoved(db, moved, step))
  {
    match step
    case Create(_, _) =>
    case Read(_, _) =>
    case Act(x, call) =>
      if x in db.sessions && Handle(db.sessions[x].order, call).Ok? {
        HandleMovesDirectly(db.sessions[x].order, call);
      }
    case SaveDelete(_, _) =>
    case SaveUpsert(_) =>
    case SaveCredentials(_) =>
  }

  /** No request moves an order's status twice before it saves. */
  predicate MovesOnce(db: Database, moved: set<int>, steps: seq<Step>)
    decreases |steps|
  {
    steps != [] ==>
      && (Moves(db, steps[0]) ==> steps[0].session !in moved)
      && MovesOnce(Next(db, steps[0]), NextMoved(db, moved, steps[0]), steps[1..])
  }

  /** With one move per save, every stored change is one of the entity's transitions. */
  lemma {:induction false} CurrentSavesFollowDirectly(db: Database, stale: set<int>, moved: set<int>, steps: seq<Step>)
    requires CurrentDirectly(db, stale, moved) && NeverStale(db, stale, steps) && MovesOnce(db, moved, steps)
    ensures AlwaysFollow(Directly, db, steps)
    decreases |steps|
  {
    if steps != [] {
      NextFollowsIff(Directly, db, steps[0]);
      NextCurrentDirectly(db, stale, moved, steps[0]);
      CurrentSavesFollowDirectly(
        Next(db, steps[0]), NextStale(db, stale, steps[0]), NextMoved(db, moved, steps[0]), steps[1..]);
    }
  }

  /** An order stored as completed or cancelled then stays so. */
  lemma {:induction false} StoredFinalStatusStays(db: Database, steps: seq<Step>, id: int)
    requires AlwaysFollow(Reaches, db, steps) && id in db.orders
    requires db.orders[id].status == Completed || db.orders[id].status == Cancelled
    ensures id in Run(db, steps).orders && Run(db, steps).orders[id].status == db.orders[id].status
    decreases |steps|
  {
    if steps != [] { StoredFinalStatusStays(Next(db, steps[0]), steps[1..], id); }
  }

  // ---- saves as single steps ----

  datatype WholeCall =
    | CreateCall(session: int, orderId: int)
    | ReadCall(session: int, orderId: int)
    | ActCall(session: int, call: Call)
    | SaveCall(session: int, rejectedBy: Option<int>)
    | SaveCredentialsCall(session: int)

  function Statements(c: WholeCall): seq<Step> {
    match c
    case CreateCall(x, id) => [Create(x, id)]
    case ReadCall(x, id) => [Read(x, id)]
    case ActCall(x, call) => [Act(x, call)]
    case SaveCall(x, rejectedBy) => [SaveDelete(x, rejectedBy), SaveUpsert(x)]
    case SaveCredentialsCall(x) => [SaveCredentials(x)]
  }

  function RunCalls(db: Database, calls: seq<WholeCall>): Database
    decreases |calls|
  {
    if calls == [] then db else RunCalls(Run(db, Statements(calls[0])), calls[1..])
  }

  ghost predicate BetweenCalls(db: Database) {
    && SessionsValid(db) && StoredRightly(db) && db.credentialLocks == map[]
    && forall x :: x in db.sessions ==> !db.sessions[x].saving
  }

  lemma RunOne(db: Database, step: Step)
    ensures Run(db, [step]) == Next(db, step)
  {
    assert [step][1..] == [];
    assert Run(Next(db, step), []) == Next(db, step);
  }

  lemma RunTwo(db: Database, first: Step, second: Step)
    ensures Run(db, [first, second]) == Next(Next(db, first), second)
  {
    assert [first, second][1..] == [second];
    RunOne(Next(db, first), second);
  }

  lemma SaveIsGuarded(db: Database, x: int, rejectedBy: Option<int>)
    requires BetweenCalls(db)
    ensures BetweenCalls(Run(db, Statements(SaveCall(x, rejectedBy))))
  {
    var first, second := SaveDelete(x, rejectedBy), SaveUpsert(x);
    RunTwo(db, first, second);
    var middle := Next(db, first);
    NextKeepsSessions(db, first);
    NextTracked(db, {}, first);
    NextStoresRightlyIff(db, {}, first);
    NextKeepsSessions(middle, second);
    NextStoresRightlyIff(middle, {}, second);
  }

  /** With each save atomic, no interleaving of stale orders and partial writes stores credentials wrongly. */
  lemma {:induction false} AtomicSavesStoreRightly(db: Database, calls: seq<WholeCall>)
    requires BetweenCalls(db)
    ensures BetweenCalls(RunCalls(db, calls))
    decreases |calls|
  {
    if calls != [] {
      var c := calls[0];
      if c.SaveCall? {
        SaveIsGuarded(db, c.session, c.rejectedBy);
      } else {
        var step := Statements(c)[0];
        RunOne(db, step);
        NextKeepsSessions(db, step);
        NextStoresRightlyIff(db, {}, step);
      }
      AtomicSavesStoreRightly(Run(db, Statements(c)), calls[1..]);
    }
  }

  // ---- what a save and a partial write leave behind ----

  /** The credentials after a save: the pending ones, the stored ones kept, or none. */
  function SavedCredentials(credentials: map<int, Credentials>, o: OrderState): map<int, Credentials> {
    if o.pending.Some? then credentials[o.id := o.pending.value]
    else if o.stored then credentials
    else credentials - {o.id}
  }

  /** A save with nothing beside it writes the order's row and credentials, and touches no other order. */
  lemma SaveWrites(db: Database, x: int, rejectedBy: Option<int>)
    requires BetweenCalls(db) && x in db.sessions
    ensures var o := db.sessions[x].order;
            var saved := Run(db, Statements(SaveCall(x, rejectedBy)));
            && saved.orders == db.orders[o.id := RowOf(o)]
            && saved.credentials == SavedCredentials(db.credentials, o)
            && saved.rejections
               == (if rejectedBy.Some? then db.rejections + {(o.id, rejectedBy.value)} else db.rejections)
            && saved.credentialLocks == map[] && saved.sessions == db.sessions[x := Session(o, false, None)]
  {
    RunTwo(db, SaveDelete(x, rejectedBy), SaveUpsert(x));
  }

  /** Saving an order and reading it back gives the same order, its pending credentials now stored. */
  lemma SaveThenRead(db: Database, x: int, rejectedBy: Option<int>, y: int)
    requires BetweenCalls(db) && x in db.sessions
    ensures var o := db.sessions[x].order;
            var saved := Run(db, Statements(SaveCall(x, rejectedBy)));
            var read := Run(saved, Statements(ReadCall(y, o.id)));
            && y in read.sessions
            && read.sessions[y].order == o.(pending := None, stored := o.id in SavedCredentials(db.credentials, o))
  {
    var o := db.sessions[x].order;
    SaveWrites(db, x, rejectedBy);
    RunOne(Run(db, Statements(SaveCall(x, rejectedBy))), Read(y, o.id));
    RowRoundTrip(o, o.id in SavedCredentials(db.credentials, o));
  }

  lemma RowRoundTrip(o: OrderState, stored: bool)
    ensures Rehydrate(o.id, RowOf(o), stored) == o.(pending := None, stored := stored)
  {
  }

  /** The columns an order is stored in; a name that is empty in memory is stored as null. */
  lemma RowColumns(o: OrderState)
    ensures RowOf(o).status == o.status && RowOf(o).boosterId == o.boosterId && RowOf(o).completedAt == o.completedAt
    ensures o.details == None ==>
              RowOf(o).summonerName == None && RowOf(o).deadline == None && RowOf(o).request == None
    ensures o.details.Some? ==>
              var d := o.details.value;
              && RowOf(o).deadline == d.deadline && RowOf(o).request == Some(d.rest)
              && RowOf(o).summonerName == (if |d.summonerName| == 0 then None else Some(d.summonerName))
  {
  }

  /** A read takes over the columns as they are stored now; credentials are only known to be there or not. */
  lemma ReadOrder(db: Database, x: int, id: int)
    requires (x in db.sessions ==> !db.sessions[x].saving) && id in db.orders
    ensures var row := db.orders[id];
            var after := Next(db, Read(x, id));
            && after == db.(sessions := after.sessions) && after.sessions - {x} == db.sessions - {x}
            && x in after.sessions && after.sessions[x] == Session(after.sessions[x].order, false, None)
            && var o := after.sessions[x].order;
               && o.id == id && o.status == row.status && o.boosterId == row.boosterId
               && o.completedAt == row.completedAt && o.pending == None && (o.stored <==> id in db.credentials)
               && (row.request == None ==> o.details == None)
               && (row.request.Some? ==> o.details == Some(Details(
                     if row.summonerName == None then "" else row.summonerName.value, row.deadline, row.request.value)))
  {
  }

  /** The first statement of a save locks the stored credentials of an order that is to have none. */
  lemma DeleteStatement(db: Database, x: int, rejectedBy: Option<int>)
    requires x in db.sessions && !db.sessions[x].saving
    requires db.sessions[x].order.id in db.credentialLocks ==> db.credentialLocks[db.sessions[x].order.id] == x
    ensures var o := db.sessions[x].order;
            var deletes := !o.stored && o.pending == None && o.id in db.credentials;
            Next(db, SaveDelete(x, rejectedBy)) == db.(
              sessions := db.sessions[x := Session(o, true, rejectedBy)],
              credentialLocks := if deletes then db.credentialLocks[o.id := x] else db.credentialLocks)
  {
  }

  /** The second writes the row, drops the locked credentials or stores pending ones, and commits. */
  lemma CommitStatement(db: Database, x: int)
    requires x in db.sessions && db.sessions[x].saving
    requires db.sessions[x].order.id in db.credentialLocks ==> db.credentialLocks[db.sessions[x].order.id] == x
    ensures var o, rejectedBy := db.sessions[x].order, db.sessions[x].rejectedBy;
            var after := Next(db, SaveUpsert(x));
            && after.orders == db.orders[o.id := RowOf(o)]
            && after.credentials == (if o.pending.Some? then db.credentials[o.id := o.pending.value]
                                     else if o.id in db.credentialLocks then db.credentials - {o.id}
                                     else db.credentials)
            && after.rejections == (if rejectedBy.Some? then db.rejections + {(o.id, rejectedBy.value)}
                                    else db.rejections)
            && after.credentialLocks == db.credentialLocks - {o.id}
            && after.sessions == db.sessions[x := Session(o, false, None)]
  {
    var o, kept := db.sessions[x].order, db.credentials - {db.sessions[x].order.id};
    assert o.pending.Some? ==> kept[o.id := o.pending.value] == db.credentials[o.id := o.pending.value];
  }

  /** Each of the statements waits while another save has the credentials locked. */
  lemma StatementsWait(db: Database, x: int, rejectedBy: Option<int>)
    requires x in db.sessions && db.sessions[x].order.id in db.credentialLocks
    requires db.credentialLocks[db.sessions[x].order.id] != x
    ensures Next(db, SaveDelete(x, rejectedBy)) == db
    ensures Next(db, SaveUpsert(x)) == db && Next(db, SaveCredentials(x)) == db
  {
  }

  /** A new order waits for its payment, without a booster or credentials, and is not stored yet. */
  lemma CreatedOrder(db: Database, x: int, id: int)
    requires x in db.sessions ==> !db.sessions[x].saving
    ensures var after := Next(db, Create(x, id));
            && after.orders == db.orders && after.credentials == db.credentials
            && x in after.sessions && !after.sessions[x].saving
            && after.sessions[x].order == OrderState(id, None, AwaitingPayment, None, false, None, None)
  {
  }

  /**
   * A partial write stores the credentials exactly when the stored order may hold them, and whatever the
   * order in memory looks like it leaves the stored status, booster, deadline and completion as they are.
   */
  lemma PartialWriteKeepsRow(db: Database, x: int, id: int)
    requires x in db.sessions && !db.sessions[x].saving && id in db.orders
    requires db.sessions[x].order.id in db.credentialLocks ==> db.credentialLocks[db.sessions[x].order.id] == x
    ensures var o := db.sessions[x].order;
            var after := Next(db, SaveCredentials(x));
            && after == db.(orders := after.orders, credentials := after.credentials) && id in after.orders
            && after.orders[id].(summonerName := db.orders[id].summonerName) == db.orders[id]
            && (o.id == id && o.pending.Some? && db.orders[id].status in {PendingBooster, InProgress} ==>
                  && after.credentials == db.credentials[id := o.pending.value]
                  && after.orders[id].summonerName ==
                     (if o.details == None || |o.details.value.summonerName| == 0 then None
                      else Some(o.details.value.summonerName)))
            && (o.id == id && (o.pending == None || db.orders[id].status !in {PendingBooster, InProgress}) ==>
                  after == db)
  {
  }

  // ---- what does not hold ----

  const PENDING_ROW := Row(PendingBooster, None, None, None, None, None)

  function OnePendingOrder(id: int): Database {
    Database(map[id := PENDING_ROW], map[], {}, map[], map[])
  }

  lemma {:induction false} RunConcat(db: Database, a: seq<Step>, b: seq<Step>)
    ensures Run(db, a + b) == Run(Run(db, a), b)
    decreases |a|
  {
    if a == [] {
      assert a + b == b;
    } else {
      assert (a + b)[1..] == a[1..] + b;
      RunConcat(Next(db, a[0]), a[1..], b);
    }
  }

  /** Two requests that read the same pending order: one cancels it, the other has credentials for it. */
  function TwoReaders(id: int, c: Credentials): Database {
    var pending := Rehydrate(id, PENDING_ROW, false);
    OnePendingOrder(id).(sessions := map[
      1 := Session(pending.(status := Cancelled), false, None),
      2 := Session(pending.(pending := Some(c)), false, None)])
  }

  function BothRead(id: int): seq<Step> {
    [Read(1, id)] + [Read(2, id)]
  }

  function BothAct(c: Credentials): seq<Step> {
    [Act(1, Cancel)] + [Act(2, SetCredentials(c))]
  }

  lemma ReachTwoReaders(id: int, c: Credentials)
    ensures Run(OnePendingOrder(id), BothRead(id) + BothAct(c)) == TwoReaders(id, c)
  {
    var pending := Rehydrate(id, PENDING_ROW, false);
    var db0 := OnePendingOrder(id);
    var read := db0.(sessions := map[1 := Session(pending, false, None), 2 := Session(pending, false, None)]);
    RunTwo(db0, Read(1, id), Read(2, id));
    assert BothRead(id) == [Read(1, id), Read(2, id)];
    assert Run(db0, BothRead(id)) == read;
    RunTwo(read, Act(1, Cancel), Act(2, SetCredentials(c)));
    assert BothAct(c) == [Act(1, Cancel), Act(2, SetCredentials(c))];
    assert Next(Next(read, Act(1, Cancel)), Act(2, SetCredentials(c))).sessions == TwoReaders(id, c).sessions;
    RunConcat(db0, BothRead(id), BothAct(c));
  }

  /** The cancellation's save, split by the other request's partial write. */
  function SplitSave(): seq<Step> {
    [SaveDelete(1, None), SaveCredentials(2)] + [SaveUpsert(1)]
  }

  /**
   * Between the two statements of a save the guarantee is open: a cancellation that found no
   * credentials to delete commits after a partial write has stored some.
   */
  lemma CredentialsCanOutliveCancellation(id: int, c: Credentials)
    ensures BetweenCalls(OnePendingOrder(id))
    ensures var end := Run(OnePendingOrder(id), BothRead(id) + BothAct(c) + SplitSave());
            id in end.orders && end.orders[id].status == Cancelled && id in end.credentials
  {
    var db := TwoReaders(id, c);
    ReachTwoReaders(id, c);
    RunConcat(OnePendingOrder(id), BothRead(id) + BothAct(c), SplitSave());
    RunConcat(db, [SaveDelete(1, None), SaveCredentials(2)], [SaveUpsert(1)]);
    RunTwo(db, SaveDelete(1, None), SaveCredentials(2));
    var stored := Next(Next(db, SaveDelete(1, None)), SaveCredentials(2));
    assert stored.credentials == map[id := c] && InSave(stored, 1) && stored.credentialLocks == map[];
    RunOne(stored, SaveUpsert(1));
  }

  /** Two whole saves in a row, the cancelling one first. */
  function SaveBoth(): seq<Step> {
    [SaveDelete(1, None), SaveUpsert(1)] + [SaveDelete(2, None), SaveUpsert(2)]
  }

  /** A stale full save writes back the status it once read: a cancelled order comes back. */
  lemma StaleSaveRevivesCancelledOrder(id: int, c: Credentials)
    ensures var saved := Run(TwoReaders(id, c), SaveBoth()[..2]);
            id in saved.orders && saved.orders[id].status == Cancelled
    ensures var end := Run(OnePendingOrder(id), BothRead(id) + BothAct(c) + SaveBoth());
            id in end.orders && end.orders[id].status == PendingBooster
  {
    var db := TwoReaders(id, c);
    ReachTwoReaders(id, c);
    RunConcat(OnePendingOrder(id), BothRead(id) + BothAct(c), SaveBoth());
    RunConcat(db, [SaveDelete(1, None), SaveUpsert(1)], [SaveDelete(2, None), SaveUpsert(2)]);
    RunTwo(db, SaveDelete(1, None), SaveUpsert(1));
    assert SaveBoth()[..2] == [SaveDelete(1, None), SaveUpsert(1)];
    var saved := Next(Next(db, SaveDelete(1, None)), SaveUpsert(1));
    assert saved.orders[id].status == Cancelled && saved.credentialLocks == map[];
    assert saved.sessions[2] == db.sessions[2];
    RunTwo(saved, SaveDelete(2, None), SaveUpsert(2));
  }
}

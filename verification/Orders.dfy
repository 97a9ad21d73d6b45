module OrderStatuses {
  datatype OrderStatus = AwaitingPayment | PendingBooster | InProgress | Completed | Cancelled

  predicate Allowed(from: OrderStatus, to: OrderStatus) {
    match from
    case AwaitingPayment => to == PendingBooster || to == Cancelled
    case PendingBooster => to == InProgress || to == Cancelled
    case InProgress => to == Completed
    case Completed => false
    case Cancelled => false
  }

  /** Left as it was, or moved on by one transition. */
  predicate Directly(from: OrderStatus, to: OrderStatus) {
    from == to || Allowed(from, to)
  }

  /** What an order's status can become by any number of transitions. */
  predicate Reaches(from: OrderStatus, to: OrderStatus) {
    match from
    case AwaitingPayment => true
    case PendingBooster => to != AwaitingPayment
    case InProgress => to == InProgress || to == Completed
    case Completed => to == Completed
    case Cancelled => to == Cancelled
  }

  lemma ReachesReflexive()
    ensures forall status :: Reaches(status, status)
  {
  }

  /** `Reaches` is exactly nothing, or one transition and then the rest. */
  lemma ReachesIsTransitions(from: OrderStatus, to: OrderStatus)
    ensures Reaches(from, to) <==> from == to || exists via :: Allowed(from, via) && Reaches(via, to)
  {
    assert from == AwaitingPayment && to == Completed ==> Allowed(from, PendingBooster) && Reaches(PendingBooster, to);
    assert from == AwaitingPayment && to == InProgress ==> Allowed(from, PendingBooster) && Reaches(PendingBooster, to);
    assert from == PendingBooster && to == Completed ==> Allowed(from, InProgress) && Reaches(InProgress, to);
    assert Allowed(from, to) ==> Allowed(from, to) && Reaches(to, to);
  }

  predicate MayHoldCredentials(s: OrderStatus) {
    s == PendingBooster || s == InProgress
  }
}

/** An order in memory: its status, booster and the credentials it holds or is about to store. */
module Orders {
  import opened OrderStatuses
  import opened Outcomes

  datatype Credentials = Credentials(login: string, summonerName: string, password: string)

  /** Request details; `rest` stands for the fields no operation here changes. */
  datatype Details = Details(summonerName: string, deadline: Option<int>, rest: int)

  datatype OrderState = OrderState(
    id: int, boosterId: Option<int>, status: OrderStatus, pending: Option<Credentials>, stored: bool,
    details: Option<Details>, completedAt: Option<int>)

  datatype Call =
    | ConfirmPayment
    | RejectByBooster
    | AcceptByBooster(deadline: int)
    | AssignBooster(boosterId: int)
    | ClearBoosterAssignment
    | Complete(now: int)
    | Cancel
    | SetCredentials(credentials: Credentials)
    | ClearCredentials

  predicate HasCredentials(o: OrderState) {
    o.stored || o.pending.Some?
  }

  function WithoutCredentials(o: OrderState): OrderState {
    o.(pending := None, stored := false)
  }

  function MoveTo(o: OrderState, next: OrderStatus): Result<OrderState> {
    if Allowed(o.status, next) then Ok(o.(status := next)) else Err(OrderInvalidTransition)
  }

  function Handle(o: OrderState, c: Call): Result<OrderState> {
    match c
    case ConfirmPayment => MoveTo(o, PendingBooster)
    case RejectByBooster => if o.status == PendingBooster then Ok(o) else Err(OrderInvalidTransition)
    case AcceptByBooster(deadline) =>
      var accepted :- MoveTo(o, InProgress);
      Ok(if o.details.Some? then accepted.(details := Some(o.details.value.(deadline := Some(deadline)))) else accepted)
    case AssignBooster(boosterId) => Ok(o.(boosterId := Some(boosterId)))
    case ClearBoosterAssignment => Ok(o.(boosterId := None))
    case Complete(now) =>
      var completed :- MoveTo(o, Completed);
      Ok(WithoutCredentials(completed).(completedAt := Some(now)))
    case Cancel =>
      if o.status == InProgress || o.status == Completed then Err(OrderCancellationNotAllowed)
      else
        var cancelled :- MoveTo(o, Cancelled);
        Ok(WithoutCredentials(cancelled))
    case SetCredentials(credentials) =>
      if !MayHoldCredentials(o.status) then Err(OrderCredentialsNotAllowed)
      else
        var holding := o.(pending := Some(credentials));
        Ok(if o.details.Some? then holding.(details := Some(o.details.value.(summonerName := credentials.summonerName)))
           else holding)
    case ClearCredentials => Ok(WithoutCredentials(o))
  }

  /** What a call left behind and answered is what `Handle` says: an error changes nothing. */
  predicate Follows(before: OrderState, c: Call, after: OrderState, result: Result<()>) {
    match Handle(before, c)
    case Ok(next) => result.Ok? && after == next
    case Err(e) => result == Err(e) && after == before
  }

  class Order {
    const id: int
    var boosterId: Option<int>
    var status: OrderStatus
    var pendingCredentials: Option<Credentials>
    var storedCredentials: bool
    var requestDetails: Option<Details>
    var completedAt: Option<int>

    constructor (o: OrderState)
      ensures State() == o
    {
      id, boosterId, status := o.id, o.boosterId, o.status;
      pendingCredentials, storedCredentials := o.pending, o.stored;
      requestDetails, completedAt := o.details, o.completedAt;
    }

    function State(): OrderState
      reads this
    {
      OrderState(id, boosterId, status, pendingCredentials, storedCredentials, requestDetails, completedAt)
    }

    method TransitionTo(next: OrderStatus) returns (result: Result<()>)
      modifies this`status
      ensures result.Ok? <==> Allowed(old(status), next)
      ensures result.Err? ==> result.error == OrderInvalidTransition
      ensures status == if result.Ok? then next else old(status)
    {
      if !Allowed(status, next) {
        return Err(OrderInvalidTransition);
      }
      status := next;
      return Ok(());
    }

    method Confirm() returns (result: Result<()>)
      modifies this
      ensures Follows(old(State()), ConfirmPayment, State(), result)
      ensures result.Ok? <==> old(status) == AwaitingPayment
      ensures State() == old(State()).(status := if result.Ok? then PendingBooster else old(status))
    {
      result := TransitionTo(PendingBooster);
    }

    method Reject() returns (result: Result<()>)
      ensures Follows(State(), RejectByBooster, State(), result)
    {
      return if status != PendingBooster then Err(OrderInvalidTransition) else Ok(());
    }

    method Accept(deadline: int) returns (result: Result<()>)
      modifies this
      ensures Follows(old(State()), AcceptByBooster(deadline), State(), result)
      ensures result.Ok? <==> old(status) == PendingBooster
      ensures status == if result.Ok? then InProgress else old(status)
    {
      result := TransitionTo(InProgress);
      if result.Ok? && requestDetails.Some? {
        requestDetails := Some(requestDetails.value.(deadline := Some(deadline)));
      }
    }

    method Assign(boosterId: int)
      modifies this
      ensures Follows(old(State()), AssignBooster(boosterId), State(), Ok(()))
    {
      this.boosterId := Some(boosterId);
    }

    method ClearAssignment()
      modifies this
      ensures Follows(old(State()), ClearBoosterAssignment, State(), Ok(()))
    {
      boosterId := None;
    }

    method Finish(now: int) returns (result: Result<()>)
      modifies this
      ensures Follows(old(State()), Complete(now), State(), result)
      ensures result.Ok? <==> old(status) == InProgress
      ensures result.Ok? ==> status == Completed && pendingCredentials == None && !storedCredentials
    {
      result := TransitionTo(Completed);
      if result.Ok? {
        Clear();
        completedAt := Some(now);
      }
    }

    method CancelOrder() returns (result: Result<()>)
      modifies this
      ensures Follows(old(State()), Cancel, State(), result)
      ensures result.Ok? <==> old(status) == AwaitingPayment || old(status) == PendingBooster
      ensures result.Ok? ==> status == Cancelled && pendingCredentials == None && !storedCredentials
    {
      if status == InProgress || status == Completed {
        return Err(OrderCancellationNotAllowed);
      }
      result := TransitionTo(Cancelled);
      if result.Ok? {
        Clear();
      }
    }

    method Hold(credentials: Credentials) returns (result: Result<()>)
      modifies this
      ensures Follows(old(State()), SetCredentials(credentials), State(), result)
    {
      if !MayHoldCredentials(status) {
        return Err(OrderCredentialsNotAllowed);
      }
      pendingCredentials := Some(credentials);
      if requestDetails.Some? {
        requestDetails := Some(requestDetails.value.(summonerName := credentials.summonerName));
      }
      return Ok(());
    }

    method Clear()
      modifies this
      ensures Follows(old(State()), ClearCredentials, State(), Ok(()))
    {
      pendingCredentials := None;
      storedCredentials := false;
    }
  }

  /** What each call does in each status, column by column. */
  lemma CallOutcome(o: OrderState, deadline: int, boosterId: int, now: int, credentials: Credentials)
    ensures Handle(o, ConfirmPayment) ==
            if o.status == AwaitingPayment then Ok(o.(status := PendingBooster)) else Err(OrderInvalidTransition)
    ensures Handle(o, RejectByBooster) == if o.status == PendingBooster then Ok(o) else Err(OrderInvalidTransition)
    ensures Handle(o, AcceptByBooster(deadline)) ==
            if o.status != PendingBooster then Err(OrderInvalidTransition)
            else if o.details == None then Ok(o.(status := InProgress))
            else Ok(o.(status := InProgress, details := Some(o.details.value.(deadline := Some(deadline)))))
    ensures Handle(o, AssignBooster(boosterId)) == Ok(o.(boosterId := Some(boosterId)))
    ensures Handle(o, ClearBoosterAssignment) == Ok(o.(boosterId := None))
    ensures Handle(o, Complete(now)) ==
            if o.status != InProgress then Err(OrderInvalidTransition)
            else Ok(o.(status := Completed, pending := None, stored := false, completedAt := Some(now)))
    ensures Handle(o, Cancel) ==
            if o.status == InProgress || o.status == Completed then Err(OrderCancellationNotAllowed)
            else if o.status == Cancelled then Err(OrderInvalidTransition)
            else Ok(o.(status := Cancelled, pending := None, stored := false))
    ensures Handle(o, SetCredentials(credentials)) ==
            if o.status != PendingBooster && o.status != InProgress then Err(OrderCredentialsNotAllowed)
            else if o.details == None then Ok(o.(pending := Some(credentials)))
            else Ok(o.(pending := Some(credentials),
                       details := Some(o.details.value.(summonerName := credentials.summonerName))))
    ensures Handle(o, ClearCredentials) == Ok(o.(pending := None, stored := false))
  {
  }

  /** Credentials in memory only in the two statuses that may hold them. */
  predicate HoldsRightly(o: OrderState) {
    HasCredentials(o) ==> MayHoldCredentials(o.status)
  }

  lemma HandleHoldsRightly(o: OrderState, c: Call)
    requires HoldsRightly(o) && Handle(o, c).Ok?
    ensures HoldsRightly(Handle(o, c).value)
    ensures Handle(o, c).value.id == o.id
  {
  }

  lemma HandleMovesDirectly(o: OrderState, c: Call)
    requires Handle(o, c).Ok?
    ensures Directly(o.status, Handle(o, c).value.status)
  {
  }

  lemma HandleReaches(o: OrderState, c: Call)
    requires Handle(o, c).Ok?
    ensures Reaches(o.status, Handle(o, c).value.status)
    ensures forall status :: Reaches(status, o.status) ==> Reaches(status, Handle(o, c).value.status)
  {
  }

  function Run(o: OrderState, calls: seq<Call>): OrderState
    decreases |calls|
  {
    if calls == [] then o else Run(match Handle(o, calls[0]) case Ok(next) => next case Err(_) => o, calls[1..])
  }

  /** Over every run of calls, completed and cancelled are final and credentials never outlive their statuses. */
  lemma {:induction false} RunKeepsFinalStatus(o: OrderState, calls: seq<Call>)
    requires HoldsRightly(o)
    ensures HoldsRightly(Run(o, calls))
    ensures o.status == Completed || o.status == Cancelled ==> Run(o, calls).status == o.status
    ensures Run(o, calls).completedAt != o.completedAt ==> Run(o, calls).status == Completed
    decreases |calls|
  {
    if calls != [] {
      var next := match Handle(o, calls[0]) case Ok(next) => next case Err(_) => o;
      if Handle(o, calls[0]).Ok? {
        HandleHoldsRightly(o, calls[0]);
      }
      RunKeepsFinalStatus(next, calls[1..]);
    }
  }
}

/** The approval queue: pending actions, each run at most once and only if approved. */
module Approval {
  import opened Wrappers
  import opened Text

  datatype Action = Action(id: string, description: string, chat: int, message: int)

  // ----- the protocol -----

  /**
   The queue and what became of its actions: `approved` and `rejected` are the ids taken out under
   the lock, `waiting` the approved actions that have not started yet, `ran` the actions run, in order.
   */
  datatype Queue = Queue(
    pending: map<string, Action>, recorded: set<string>, approved: set<string>, rejected: set<string>,
    waiting: set<string>, ran: seq<string>)

  /**
   The atomic steps of concurrent callbacks: recording a request with a fresh id, the lock section
   of an approval, running the approved action after it, and the lock section of a rejection.
   */
  datatype Step = Record(action: Action) | TakeApproved(id: string) | Perform(id: string) | TakeRejected(id: string)

  const EMPTY: Queue := Queue(map[], {}, {}, {}, {}, [])

  /** One step, if it is enabled; a callback for an id that is not pending changes nothing. */
  function Next(q: Queue, s: Step): Option<Queue> {
    match s
    case Record(a) =>
      if a.id in q.recorded then None
      else Some(q.(pending := q.pending[a.id := a], recorded := q.recorded + {a.id}))
    case TakeApproved(id) =>
      if id !in q.pending then Some(q)
      else Some(q.(pending := q.pending - {id}, approved := q.approved + {id}, waiting := q.waiting + {id}))
    case Perform(id) =>
      if id !in q.waiting then None
      else Some(q.(waiting := q.waiting - {id}, ran := q.ran + [id]))
    case TakeRejected(id) =>
      if id !in q.pending then Some(q)
      else Some(q.(pending := q.pending - {id}, rejected := q.rejected + {id}))
  }

  /** Each recorded action is in exactly one place, and what ran was approved and ran once. */
  ghost predicate Inv(q: Queue) {
    && q.recorded == q.pending.Keys + q.approved + q.rejected
    && q.pending.Keys !! q.approved !! q.rejected
    && (forall id :: id in q.pending ==> q.pending[id].id == id)
    && (forall id :: id in q.approved <==> id in q.waiting || id in q.ran)
    && (forall id :: id in q.waiting ==> id !in q.ran)
    && (forall i, j :: 0 <= i < j < |q.ran| ==> q.ran[i] != q.ran[j])
  }

  lemma StepKeeps(q: Queue, s: Step)
    requires Inv(q) && Next(q, s).Some?
    ensures Inv(Next(q, s).value)
  {}

  function IdOf(s: Step): string {
    if s.Record? then s.action.id else s.id
  }

  /** A step concerns its own action only: any other is pending, decided, waiting or run as before. */
  lemma OthersUntouched(q: Queue, s: Step, other: string)
    requires Next(q, s).Some? && other != IdOf(s)
    ensures var t := Next(q, s).value;
            && (other in t.pending <==> other in q.pending)
            && (other in q.pending ==> t.pending[other] == q.pending[other])
            && (other in t.recorded <==> other in q.recorded)
            && (other in t.approved <==> other in q.approved) && (other in t.rejected <==> other in q.rejected)
            && (other in t.waiting <==> other in q.waiting) && multiset(t.ran)[other] == multiset(q.ran)[other]
  {
    if s.Perform? && s.id in q.waiting {
      assert multiset(q.ran + [s.id]) == multiset(q.ran) + multiset{s.id};
    }
  }

  function After(steps: seq<Step>, n: nat): Option<Queue>
    requires n <= |steps|
  {
    if n == 0 then Some(EMPTY)
    else
      var before := After(steps, n - 1);
      if before.None? then None else Next(before.value, steps[n - 1])
  }

  lemma {:induction false} RunKeeps(steps: seq<Step>, n: nat)
    requires n <= |steps| && After(steps, n).Some?
    ensures Inv(After(steps, n).value)
  {
    if n > 0 {
      RunKeeps(steps, n - 1);
      StepKeeps(After(steps, n - 1).value, steps[n - 1]);
    }
  }

  lemma {:induction false} HistoryGrows(steps: seq<Step>, k: nat, n: nat)
    requires k <= n <= |steps| && After(steps, n).Some?
    ensures After(steps, k).Some?
    ensures var a, b := After(steps, k).value, After(steps, n).value;
            a.recorded <= b.recorded && a.approved <= b.approved && a.rejected <= b.rejected && a.ran <= b.ran
    decreases n
  {
    if k < n { HistoryGrows(steps, k, n - 1); }
  }

  /**
   In every interleaving: an action that was rejected at some point is never run, before or after;
   one that was run is never run again and was never rejected; and an approved action has run
   unless its callback has not come to it yet.
   */
  lemma DecidedOnce(steps: seq<Step>, k: nat, n: nat, id: string)
    requires k <= n <= |steps| && After(steps, n).Some?
    ensures After(steps, k).Some?
    ensures var earlier, now := After(steps, k).value, After(steps, n).value;
            && (id in earlier.rejected ==> id !in now.ran && id !in now.approved && id !in now.pending)
            && (id in earlier.ran ==> multiset(now.ran)[id] == 1 && id !in now.rejected && id !in now.pending)
            && (id in earlier.approved ==> (id in now.ran <==> id !in now.waiting))
            && multiset(now.ran)[id] <= 1
  {
    RunKeeps(steps, n);
    HistoryGrows(steps, k, n);
    OccursOnce(After(steps, n).value.ran, id, |After(steps, n).value.ran|);
  }

  lemma {:induction false} OccursOnce(s: seq<string>, x: string, n: nat)
    requires n <= |s| && forall i, j :: 0 <= i < j < |s| ==> s[i] != s[j]
    ensures multiset(s[..n])[x] == if x in s[..n] then 1 else 0
    ensures n == |s| ==> s[..n] == s
  {
    if n > 0 {
      OccursOnce(s, x, n - 1);
      assert s[..n] == s[..n - 1] + [s[n - 1]];
    }
  }

  /** Whichever of an approval and a rejection takes the lock first decides; the other finds nothing. */
  lemma FirstDecides(q: Queue, id: string)
    requires Inv(q) && id in q.pending
    ensures var a, r := Next(q, TakeApproved(id)).value, Next(q, TakeRejected(id)).value;
            && Next(a, TakeRejected(id)) == Some(a) && Next(a, TakeApproved(id)) == Some(a)
            && Next(r, TakeApproved(id)) == Some(r) && Next(r, TakeRejected(id)) == Some(r)
            && Next(a, Perform(id)).Some? && Next(r, Perform(id)).None?
  {}

  // ----- the program -----

  datatype Verdict = Approved | Rejected

  /** The callback data of a button is its verdict and the action's id, whatever characters the id has. */
  function ButtonData(v: Verdict, id: string): string {
    (if v == Approved then "approve" else "reject") + ":" + id
  }

  function ParseData(data: string): Option<(Verdict, string)> {
    var parts := SplitN(data, ":", 2);
    if |parts| != 2 then None
    else if parts[0] == "approve" then Some((Approved, parts[1]))
    else if parts[0] == "reject" then Some((Rejected, parts[1]))
    else None
  }

  /** Only a button's data is understood: it is a verdict's word, a colon, and the id, colons and all. */
  lemma OnlyButtonsParse(data: string)
    ensures forall id :: ParseData(data) == Some((Approved, id)) <==> data == "approve:" + id
    ensures forall id :: ParseData(data) == Some((Rejected, id)) <==> data == "reject:" + id
  {
    var i := Index(data, ":");
    if i != -1 {
      assert data[i..i + 1] == ":";
      assert data == data[..i] + ":" + data[i + 1..];
    }
    forall id ensures ParseData(data) == Some((Approved, id)) <==> data == "approve:" + id {
      ButtonsParse(Approved, id);
      assert "approve" + ":" + id == "approve:" + id;
    }
    forall id ensures ParseData(data) == Some((Rejected, id)) <==> data == "reject:" + id {
      ButtonsParse(Rejected, id);
      assert "reject" + ":" + id == "reject:" + id;
    }
  }

  lemma ButtonsParse(v: Verdict, id: string)
    ensures ParseData(ButtonData(v, id)) == Some((v, id))
  {
    var word := if v == Approved then "approve" else "reject";
    SplitChar(word, ':', id);
    var data := word + ":" + id;
    assert data[..|word|] == word && data[|word| + 1..] == id;
  }

  /** A pending action approved and run, with nothing in between; every other action is where it was. */
  function TakenAndRun(q: Queue, id: string): (r: Queue)
    ensures r.recorded == q.recorded && r.approved == q.approved + (if id in q.pending then {id} else {})
    ensures r.rejected == q.rejected && r.waiting == q.waiting - (if id in q.pending then {id} else {})
    ensures r.pending == q.pending - {id}
    ensures r.ran == q.ran + if id in q.pending then [id] else []
  {
    if id in q.pending then Next(Next(q, TakeApproved(id)).value, Perform(id)).value else q
  }

  /** A pending action rejected; every other action is where it was, and nothing has run. */
  function OnlyRejected(q: Queue, id: string): (r: Queue)
    ensures r.pending == q.pending - {id}
    ensures r.rejected == q.rejected + if id in q.pending then {id} else {}
    ensures r.recorded == q.recorded && r.approved == q.approved && r.waiting == q.waiting && r.ran == q.ran
  {
    Next(q, TakeRejected(id)).value
  }

  datatype ApprovalError = SendFailed | ActionNotFound | ActionFailed

  class ApprovalQueue {
    var pending: map<string, Action>
    /** The steps taken so far and what they lead to. */
    ghost var steps: seq<Step>
    ghost var queue: Queue

    ghost predicate Valid()
      reads this
    {
      After(steps, |steps|) == Some(queue) && pending == queue.pending
    }

    constructor ()
      ensures Valid() && queue == EMPTY
    {
      pending, steps, queue := map[], [], EMPTY;
    }

    lemma ValidIsInv()
      requires Valid()
      ensures Inv(queue)
    {
      RunKeeps(steps, |steps|);
    }

    ghost method Log(s: Step)
      requires After(steps, |steps|) == Some(queue) && Next(queue, s).Some?
      modifies this`steps, this`queue
      ensures After(steps, |steps|) == Some(queue) && queue == Next(old(queue), s).value && steps == old(steps) + [s]
    {
      AfterPrefix(steps, [s], |steps|);
      steps, queue := steps + [s], Next(queue, s).value;
    }

    /** The buttons are sent first; `id` is the fresh id, `message` the id of the sent message, if it was sent. */
    method Request(id: string, chat: int, description: string, message: Option<int>) returns (r: Option<ApprovalError>)
      requires Valid() && id !in queue.recorded
      modifies this
      ensures Valid() && r == if message.Some? then None else Some(SendFailed)
      ensures pending == if message.None? then old(pending)
                         else old(pending)[id := Action(id, description, chat, message.value)]
      ensures queue
           == if message.Some? then Next(old(queue), Record(Action(id, description, chat, message.value))).value
              else old(queue)
    {
      if message.None? { return Some(SendFailed); }
      var action := Action(id, description, chat, message.value);
      pending := pending[id := action];
      Log(Record(action));
      r := None;
    }

    /** The lock section of an approval. */
    method TakeForApproval(id: string) returns (action: Option<Action>)
      requires Valid()
      modifies this
      ensures Valid() && queue == Next(old(queue), TakeApproved(id)).value
      ensures action == if id in old(pending) then Some(old(pending)[id]) else None
    {
      action := if id in pending then Some(pending[id]) else None;
      pending := pending - {id};
      Log(TakeApproved(id));
    }

    /** Running an approved action, outside the lock. `succeeds` is how the action ends. */
    method RunAction(id: string, succeeds: bool) returns (r: Option<ApprovalError>)
      requires Valid() && id in queue.waiting
      modifies this
      ensures Valid() && queue == Next(old(queue), Perform(id)).value
      ensures r == if succeeds then None else Some(ActionFailed)
    {
      Log(Perform(id));
      r := if succeeds then None else Some(ActionFailed);
    }

    /** A whole approval, when nothing comes between its lock section and the action. */
    method Approve(id: string, succeeds: bool) returns (r: Option<ApprovalError>)
      requires Valid()
      modifies this
      ensures Valid()
      ensures queue == TakenAndRun(old(queue), id)
      ensures r == if id !in old(pending) then Some(ActionNotFound) else if succeeds then None else Some(ActionFailed)
    {
      var action := TakeForApproval(id);
      if action.None? { return Some(ActionNotFound); }
      r := RunAction(id, succeeds);
    }

    method Reject(id: string) returns (r: Option<ApprovalError>)
      requires Valid()
      modifies this
      ensures Valid() && queue == OnlyRejected(old(queue), id)
      ensures r == if id in old(pending) then None else Some(ActionNotFound)
    {
      r := if id in pending then None else Some(ActionNotFound);
      pending := pending - {id};
      Log(TakeRejected(id));
    }

    /** One button press; the answer shown says what was pressed, even if the action was gone. */
    method HandleCallback(data: string, succeeds: bool) returns (answer: Option<Verdict>)
      requires Valid()
      modifies this
      ensures Valid()
      ensures match ParseData(data)
              case None => answer == None && queue == old(queue)
              case Some((Approved, id)) => answer == Some(Approved) && queue == TakenAndRun(old(queue), id)
              case Some((Rejected, id)) => answer == Some(Rejected) && queue == OnlyRejected(old(queue), id)
    {
      var parts := SplitN(data, ":", 2);
      if |parts| != 2 { return None; }
      if parts[0] == "approve" {
        var _ := Approve(parts[1], succeeds);
        answer := Some(Approved);
      } else if parts[0] == "reject" {
        var _ := Reject(parts[1]);
        answer := Some(Rejected);
      } else {
        answer := None;
      }
    }
  }

  lemma {:induction false} AfterPrefix(steps: seq<Step>, more: seq<Step>, n: nat)
    requires n <= |steps|
    ensures After(steps + more, n) == After(steps, n)
  {
    if n > 0 { AfterPrefix(steps, more, n - 1); }
  }
}

/** Task statuses and the moves the Task commands make. COMPLETED and CANCELLED are never left. */
module TaskStates {
  datatype TaskStatus = NotStarted | InProgress | Blocked | ReadyForValidation | Completed | Cancelled

  datatype TaskCommand = Start | Block | Resume | SubmitValidation | Approve | Reject | Cancel

  predicate Terminal(s: TaskStatus) {
    s == Completed || s == Cancelled
  }

  /** Legality is per command: only a rejected validation leads from READY_FOR_VALIDATION back to work. */
  predicate Legal(c: TaskCommand, s: TaskStatus) {
    match c
    case Start => s == NotStarted
    case Block => s == InProgress
    case Resume => s == Blocked
    case SubmitValidation => s == InProgress
    case Approve => s == ReadyForValidation
    case Reject => s == ReadyForValidation
    case Cancel => !Terminal(s)
  }

  function Target(c: TaskCommand): TaskStatus {
    match c
    case Start => InProgress
    case Block => Blocked
    case Resume => InProgress
    case SubmitValidation => ReadyForValidation
    case Approve => Completed
    case Reject => InProgress
    case Cancel => Cancelled
  }

  /** The moves of the documented Task machine, whichever command makes them. */
  ghost const MOVES: set<(TaskStatus, TaskStatus)> := {
    (NotStarted, InProgress), (InProgress, Blocked), (Blocked, InProgress), (InProgress, ReadyForValidation),
    (ReadyForValidation, InProgress), (ReadyForValidation, Completed),
    (NotStarted, Cancelled), (InProgress, Cancelled), (Blocked, Cancelled), (ReadyForValidation, Cancelled)}

  /** The commands make exactly the documented moves, and what none of them leaves is terminal. */
  lemma CommandsMakeTheMoves(s: TaskStatus, t: TaskStatus)
    ensures (exists c :: Legal(c, s) && Target(c) == t) <==> (s, t) in MOVES
    ensures Terminal(s) <==> forall c :: !Legal(c, s)
  {
    if (s, t) in MOVES {
      var c :=
        if t == Cancelled then Cancel else if t == Completed then Approve else if t == Blocked then Block
        else if t == ReadyForValidation then SubmitValidation
        else if s == NotStarted then Start else if s == Blocked then Resume else Reject;
      assert Legal(c, s) && Target(c) == t;
    }
    if !Terminal(s) {
      assert Legal(Cancel, s);
    }
  }

  /** A status is entered by its own command: work is completed by approval and resumed from BLOCKED alone. */
  lemma EnteredBy(c: TaskCommand, s: TaskStatus)
    requires Legal(c, s)
    ensures Target(c) == Completed <==> c == Approve
    ensures Target(c) == ReadyForValidation <==> c == SubmitValidation
    ensures Target(c) == Blocked <==> c == Block
    ensures Target(c) == Cancelled <==> c == Cancel
    ensures Target(c) == InProgress <==>
              (s == NotStarted && c == Start) || (s == Blocked && c == Resume) || (s == ReadyForValidation && c == Reject)
  {
  }

  /** Ascending order without repetition, the order row locks are taken in. */
  ghost predicate Ascending(s: seq<nat>) {
    forall i, j :: 0 <= i < j < |s| ==> s[i] < s[j]
  }

  lemma AscendingPrefix(s: seq<nat>, i: nat)
    requires Ascending(s) && i < |s|
    ensures s[..i + 1] == s[..i] + [s[i]] && forall x :: x in s[..i] ==> x < s[i]
  {
  }

  lemma AscendingSnoc(s: seq<nat>, x: nat)
    requires Ascending(s) && forall y :: y in s ==> y < x
    ensures Ascending(s + [x])
  {
    forall i | 0 <= i < |s|
      ensures s[i] < x
    {
      assert s[i] in s;
    }
  }

  /** `ORDER BY id` over a set of ids. */
  method SortedIds(ids: set<nat>) returns (r: seq<nat>)
    ensures Ascending(r) && forall x :: x in r <==> x in ids
  {
    r := [];
    var rest := ids;
    while rest != {}
      invariant rest <= ids && Ascending(r)
      invariant forall x :: x in r <==> x in ids && x !in rest
      invariant forall k, y :: 0 <= k < |r| && y in rest ==> r[k] < y
      decreases rest
    {
      var least := Least(rest);
      r := r + [least];
      rest := rest - {least};
    }
  }

  method Least(s: set<nat>) returns (m: nat)
    requires s != {}
    ensures m in s && forall x :: x in s ==> m <= x
  {
    m :| m in s;
    var rest := s - {m};
    while rest != {}
      invariant rest <= s && m in s && forall x :: x in s && x !in rest ==> m <= x
      decreases rest
    {
      var x :| x in rest;
      rest := rest - {x};
      if x < m {
        m := x;
      }
    }
  }
}

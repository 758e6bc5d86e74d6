/** Whole runs of the operations on descriptors. */
module DescriptorRuns {
  import opened TableSpec
  import opened FileDescriptors

  /** `total` counts the files opened so far; each gets its own id. */
  datatype State = State(open: map<nat, FileEntry>, closed: seq<FileEntry>, total: nat)

  datatype Op = OpenFile(opens: bool, newFd: nat) | Renumber(from: int, target: int) | CloseFile(fd: int, closes: bool)

  /** A file is opened at the least unused descriptor; the other operations take any argument. */
  predicate Possible(s: State, op: Op) {
    op.OpenFile? && op.opens ==> op.newFd !in s.open && forall k: nat :: k < op.newFd ==> k in s.open
  }

  function Step(s: State, op: Op): State
    requires Possible(s, op)
  {
    match op
    case OpenFile(opens, fd) =>
      if opens then State(s.open[fd := FileEntry(s.total, false)], s.closed, s.total + 1) else s
    case Renumber(from, target) =>
      if RenumberErrno(s.open, from, target) != Success then s
      else State(Renumbered(s.open, from, target),
                 s.closed + if target in s.open then [s.open[target]] else [], s.total)
    case CloseFile(fd, closes) =>
      if 0 <= fd && fd in s.open && closes then State(s.open - {fd}, s.closed + [s.open[fd]], s.total) else s
  }

  /** No two descriptors share a file and none refers to a closed one. */
  predicate Live(s: State) {
    && (forall a, b :: a in s.open && b in s.open && s.open[a].id == s.open[b].id ==> a == b)
    && (forall i, a :: 0 <= i < |s.closed| && a in s.open ==> s.closed[i].id != s.open[a].id)
    && (forall a :: a in s.open ==> s.open[a].id < s.total)
    && (forall i :: 0 <= i < |s.closed| ==> s.closed[i].id < s.total)
  }

  /** A renumbering of a descriptor to itself, of a file that is not pre-opened. */
  predicate SelfRenumber(s: State, op: Op) {
    op.Renumber? && op.from == op.target && RenumberErrno(s.open, op.from, op.target) == Success
  }

  /** Every step keeps descriptors live, except renumbering one to itself: that closes the file and
      leaves its descriptor in the table. */
  lemma {:induction false} StepIsLive(s: State, op: Op)
    requires Live(s) && Possible(s, op)
    ensures Live(Step(s, op)) <==> !SelfRenumber(s, op)
  {
    var t := Step(s, op);
    match op
    case OpenFile(_, _) =>
    case CloseFile(fd, closes) =>
      if 0 <= fd && fd in s.open && closes { ClosedIsLive(s, fd); }
    case Renumber(from, target) =>
      if RenumberErrno(s.open, from, target) == Success {
        if from == target {
          assert t.closed[|s.closed|].id == t.open[target].id;
        } else {
          MovedIsLive(s, from, target);
        }
      }
  }

  lemma {:induction false} ClosedIsLive(s: State, fd: nat)
    requires Live(s) && fd in s.open
    ensures Live(Step(s, CloseFile(fd, true)))
  {
    var t := Step(s, CloseFile(fd, true));
    forall i, a | 0 <= i < |t.closed| && a in t.open
      ensures t.closed[i].id != t.open[a].id
    {
      assert a != fd && t.open[a] == s.open[a];
      if i < |s.closed| {
        assert t.closed[i] == s.closed[i];
      } else {
        assert t.closed[i] == s.open[fd];
      }
    }
  }

  lemma {:induction false} MovedIsLive(s: State, from: nat, target: nat)
    requires Live(s) && from != target && RenumberErrno(s.open, from, target) == Success
    ensures Live(Step(s, Renumber(from, target)))
  {
    var t := Step(s, Renumber(from, target));
    forall i, a | 0 <= i < |t.closed| && a in t.open
      ensures t.closed[i].id != t.open[a].id
    {
      var b := if a == target then from else a;
      assert t.open[a] == s.open[b] && b != target;
      if i < |s.closed| {
        assert t.closed[i] == s.closed[i];
      } else {
        assert t.closed[i] == s.open[target];
      }
    }
    forall a, b | a in t.open && b in t.open && t.open[a].id == t.open[b].id
      ensures a == b
    {
      var x, y := if a == target then from else a, if b == target then from else b;
      assert t.open[a] == s.open[x] && t.open[b] == s.open[y];
    }
  }

  predicate PossibleRun(s: State, ops: seq<Op>)
    decreases |ops|
  {
    ops == [] || (Possible(s, ops[0]) && PossibleRun(Step(s, ops[0]), ops[1..]))
  }

  function Run(s: State, ops: seq<Op>): State
    requires PossibleRun(s, ops)
    decreases |ops|
  {
    if ops == [] then s else Run(Step(s, ops[0]), ops[1..])
  }

  predicate NeverSelf(s: State, ops: seq<Op>)
    requires PossibleRun(s, ops)
    decreases |ops|
  {
    ops == [] || (!SelfRenumber(s, ops[0]) && NeverSelf(Step(s, ops[0]), ops[1..]))
  }

  predicate NeverCloses(ops: seq<Op>, fd: nat) {
    forall i :: 0 <= i < |ops| ==> !(ops[i].CloseFile? && ops[i].fd == fd)
  }

  /** Over any run without such a renumbering, descriptors stay live, and a pre-open stays where it is
      until it is closed. */
  lemma {:induction false} RunIsLive(s: State, ops: seq<Op>)
    requires PossibleRun(s, ops) && Live(s) && NeverSelf(s, ops)
    ensures Live(Run(s, ops))
    ensures forall fd :: fd in s.open && s.open[fd].isPreopen && NeverCloses(ops, fd) ==>
              fd in Run(s, ops).open && Run(s, ops).open[fd] == s.open[fd]
    decreases |ops|
  {
    hide Live;
    hide SelfRenumber;
    if ops != [] {
      var t := Step(s, ops[0]);
      StepIsLive(s, ops[0]);
      RunIsLive(t, ops[1..]);
      forall fd | fd in s.open && s.open[fd].isPreopen && NeverCloses(ops, fd)
        ensures fd in Run(s, ops).open && Run(s, ops).open[fd] == s.open[fd]
      {
        assert !(ops[0].CloseFile? && ops[0].fd == fd);
        assert fd in t.open && t.open[fd] == s.open[fd];
        assert forall i :: 0 <= i < |ops[1..]| ==> ops[1..][i] == ops[i + 1];
      }
    }
  }

  // ---- the operations themselves -------------------------------------------------------

  /** What the guest asks for, and whether the host manages to open or close the file. */
  datatype Request = ToOpen(opens: bool) | ToRenumber(from: int, target: int) | ToClose(fd: int, closes: bool)

  /** The step a request turns into: an opened file gets a descriptor from the table. */
  predicate Answers(request: Request, op: Op) {
    match request
    case ToOpen(opens) => op.OpenFile? && op.opens == opens
    case ToRenumber(from, target) => op == Renumber(from, target)
    case ToClose(fd, closes) => op == CloseFile(fd, closes)
  }

  ghost function StateOf(c: FSContext): State
    requires c.Valid()
    reads c, c.openedFiles
  {
    State(c.Open(), c.closed, c.total)
  }

  lemma {:induction false} RunMore(s: State, ops: seq<Op>, op: Op)
    requires PossibleRun(s, ops) && Possible(Run(s, ops), op)
    ensures PossibleRun(s, ops + [op]) && Run(s, ops + [op]) == Step(Run(s, ops), op)
    decreases |ops|
  {
    hide Step;
    hide Possible;
    if ops == [] {
      assert ops + [op] == [op] && [op][1..] == [];
    } else {
      assert (ops + [op])[1..] == ops[1..] + [op];
      RunMore(Step(s, ops[0]), ops[1..], op);
    }
  }

  lemma {:induction false} StepSize(s: State, op: Op)
    requires Possible(s, op)
    ensures |Step(s, op).open| <= |s.open| + 1
  {
    var t := Step(s, op);
    assert t.open.Keys <= s.open.Keys + {if op.OpenFile? then op.newFd else if op.Renumber? && op.target >= 0 then op.target else 0};
    SubsetSize(t.open.Keys, s.open.Keys + {if op.OpenFile? then op.newFd else if op.Renumber? && op.target >= 0 then op.target else 0});
  }

  /** One request, carried out on the table. */
  method Perform(c: FSContext, request: Request) returns (op: Op)
    requires c.Valid() && |c.Open()| < KEY_LIMIT && (request.ToRenumber? ==> request.target < KEY_LIMIT)
    modifies c, c.openedFiles
    ensures c.Valid() && Answers(request, op)
    ensures Possible(old(StateOf(c)), op) && StateOf(c) == Step(old(StateOf(c)), op)
  {
    match request
    case ToOpen(opens) =>
      var fd, errno := c.OpenFile(opens);
      op := OpenFile(opens, fd);
    case ToRenumber(from, target) =>
      var errno := c.Renumber(from, target);
      op := Renumber(from, target);
    case ToClose(fd, closes) =>
      var errno := c.CloseFile(fd, closes);
      op := CloseFile(fd, closes);
  }

  /** Whatever the guest asks for, the table goes through a run of these steps, one for each request; so
      if none of them renumbers a descriptor to itself, descriptors stay live. */
  method PerformAll(c: FSContext, requests: seq<Request>) returns (ops: seq<Op>)
    requires c.Valid() && |c.Open()| + |requests| <= KEY_LIMIT
    requires forall k :: 0 <= k < |requests| && requests[k].ToRenumber? ==> requests[k].target < KEY_LIMIT
    modifies c, c.openedFiles
    ensures c.Valid() && |ops| == |requests| && forall k :: 0 <= k < |ops| ==> Answers(requests[k], ops[k])
    ensures PossibleRun(old(StateOf(c)), ops) && StateOf(c) == Run(old(StateOf(c)), ops)
    ensures Live(old(StateOf(c))) && NeverSelf(old(StateOf(c)), ops) ==> Live(StateOf(c))
  {
    hide Step;
    hide Possible;
    hide Live;
    hide NeverSelf;
    ops := [];
    for i := 0 to |requests|
      invariant c.Valid() && |ops| == i && |c.Open()| <= old(|c.Open()|) + i
      invariant forall k :: 0 <= k < i ==> Answers(requests[k], ops[k])
      invariant PossibleRun(old(StateOf(c)), ops) && StateOf(c) == Run(old(StateOf(c)), ops)
    {
      ghost var before := StateOf(c);
      var op := Perform(c, requests[i]);
      StepSize(before, op);
      RunMore(old(StateOf(c)), ops, op);
      ops := ops + [op];
    }
    if Live(old(StateOf(c))) && NeverSelf(old(StateOf(c)), ops) {
      RunIsLive(old(StateOf(c)), ops);
    }
  }
}

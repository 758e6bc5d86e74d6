/** The elements found do not depend on how the bytes arrive, and they are the elements that
    were printed. */
module ScannerProofs {
  import opened Wrappers
  import opened JsonTokens
  import opened ScannerSpec

  /** The byte automaton run to the end of the bytes, to the closing bracket, or to an error. */
  datatype Scan = Scan(elems: seq<seq<byte>>, phase: Phase, rest: seq<byte>)

  function ScanBytes(p: Phase, bytes: seq<byte>): Scan
    decreases |bytes|
  {
    if bytes == [] || p.Closed? || p.Bad? then Scan([], p, bytes)
    else
      var r := ScanBytes(Step(p, bytes[0]), bytes[1..]);
      if Completes(p, bytes[0]) then r.(elems := [p.partial + [bytes[0]]] + r.elems) else r
  }

  /** `drain`: every element `next` can produce from the unread bytes. */
  datatype Drained = Drained(elems: seq<seq<byte>>, phase: Phase, unread: seq<byte>)

  function Drain(p: Phase, unread: seq<byte>): Drained
    decreases |unread|
  {
    match NextElement(p, unread)
    case Failed => Drained([], Bad, [])
    case Starved(q, rest) => Drained([], q, rest)
    case Element(e, q, rest) =>
      NextConsumes(p, unread);
      var d := Drain(q, rest);
      d.(elems := [e] + d.elems)
  }

  /** Chunk after chunk: each non-empty one is fed and drained; an error is final. */
  function Feeds(p: Phase, unread: seq<byte>, chunks: seq<seq<byte>>): Drained
    decreases |chunks|
  {
    if chunks == [] || p.Bad? then Drained([], p, unread)
    else if chunks[0] == [] then Feeds(p, unread, chunks[1..])
    else
      var d := Drain(p, unread + chunks[0]);
      var e := Feeds(d.phase, d.unread, chunks[1..]);
      e.(elems := d.elems + e.elems)
  }

  function Flatten(chunks: seq<seq<byte>>): seq<byte> {
    if chunks == [] then [] else chunks[0] + Flatten(chunks[1..])
  }

  predicate AllSeparators(bytes: seq<byte>) {
    forall k :: 0 <= k < |bytes| ==> IsWhitespace(bytes[k]) || bytes[k] == VALUE_SEPARATOR
  }

  // ---- draining is running ------------------------------------------------

  lemma {:induction false} NextThenRun(p: Phase, unread: seq<byte>)
    requires !p.Closed? && !p.Bad?
    ensures match NextElement(p, unread)
            case Failed => ScanBytes(p, unread).elems == [] && ScanBytes(p, unread).phase.Bad?
            case Starved(q, rest) => ScanBytes(p, unread) == Scan([], q, rest) && !q.Bad? && (!q.Closed? ==> rest == [])
            case Element(e, q, rest) =>
              && q.Between? && ScanBytes(p, unread) == ScanBytes(q, rest).(elems := [e] + ScanBytes(q, rest).elems)
    decreases |unread|
  {
    if unread != [] {
      var q := Step(p, unread[0]);
      if !q.Bad? && !q.Closed? && !Completes(p, unread[0]) { NextThenRun(q, unread[1..]); }
    }
  }

  lemma {:induction false} DrainIsRun(p: Phase, unread: seq<byte>)
    requires !p.Closed? && !p.Bad?
    ensures var r, d := ScanBytes(p, unread), Drain(p, unread);
            && d.elems == r.elems && d.phase == r.phase
            && (!r.phase.Bad? ==> d.unread == r.rest)
            && (!r.phase.Bad? && !r.phase.Closed? ==> r.rest == [])
    decreases |unread|
  {
    NextThenRun(p, unread);
    NextConsumes(p, unread);
    match NextElement(p, unread)
    case Element(_, q, rest) => DrainIsRun(q, rest);
    case _ =>
  }

  lemma {:induction false} DrainClosed(unread: seq<byte>)
    ensures Drain(Closed, unread) == if AllSeparators(unread) then Drained([], Closed, []) else Drained([], Bad, [])
    decreases |unread|
  {
    if unread != [] {
      if IsSeparator(unread[0]) {
        DrainClosed(unread[1..]);
        assert AllSeparators(unread) <==> AllSeparators(unread[1..]) by {
          assert forall k :: 1 <= k < |unread| ==> unread[k] == unread[1..][k - 1];
        }
      } else {
        assert !AllSeparators(unread);
      }
    }
  }

  lemma {:induction false} RunAppend(p: Phase, a: seq<byte>, b: seq<byte>)
    ensures var r := ScanBytes(p, a);
            if r.phase.Closed? || r.phase.Bad? then
              ScanBytes(p, a + b) == r.(rest := r.rest + b)
            else
              ScanBytes(p, a + b) == ScanBytes(r.phase, b).(elems := r.elems + ScanBytes(r.phase, b).elems)
    decreases |a|
  {
    if a == [] {
      assert a + b == b;
    } else if p.Closed? || p.Bad? {
    } else {
      assert (a + b)[1..] == a[1..] + b && (a + b)[0] == a[0];
      RunAppend(Step(p, a[0]), a[1..], b);
    }
  }

  // ---- chunk independence -------------------------------------------------

  lemma {:induction false} FeedsClosed(unread: seq<byte>, chunks: seq<seq<byte>>)
    ensures var d := Feeds(Closed, unread, chunks);
            && d.elems == []
            && (d.phase.Bad? <==> Flatten(chunks) != [] && !AllSeparators(unread + Flatten(chunks)))
            && (!d.phase.Bad? ==> d.phase.Closed?)
    decreases |chunks|
  {
    if chunks != [] {
      if chunks[0] == [] {
        assert Flatten(chunks) == Flatten(chunks[1..]);
        FeedsClosed(unread, chunks[1..]);
      } else {
        var seen, later := unread + chunks[0], Flatten(chunks[1..]);
        DrainClosed(seen);
        assert unread + Flatten(chunks) == seen + later;
        SeparatorsAppend(seen, later);
        if AllSeparators(seen) {
          FeedsClosed([], chunks[1..]);
          assert [] + later == later;
        }
      }
    }
  }

  lemma {:induction false} SeparatorsAppend(a: seq<byte>, b: seq<byte>)
    ensures AllSeparators(a + b) <==> AllSeparators(a) && AllSeparators(b)
  {
    if AllSeparators(a + b) {
      assert forall k :: 0 <= k < |a| ==> a[k] == (a + b)[k];
      assert forall k :: 0 <= k < |b| ==> b[k] == (a + b)[|a| + k];
    }
  }

  /** The array closed before the last non-empty chunk arrived, so its tail was examined. */
  function TailExamined(p: Phase, chunks: seq<seq<byte>>): bool
    decreases |chunks|
  {
    if chunks == [] then false
    else
      var q := ScanBytes(p, chunks[0]).phase;
      if q.Closed? && !p.Closed? then Flatten(chunks[1..]) != [] else TailExamined(q, chunks[1..])
  }

  /** For any byte stream and any cutting into chunks, the elements produced are those of the
      byte automaton, and so is the final phase; only bytes after the closing bracket are
      treated differently, being examined if and only if a further chunk arrives. */
  lemma {:induction false} ChunkIndependent(p: Phase, chunks: seq<seq<byte>>)
    requires !p.Closed? && !p.Bad?
    ensures var r, d := ScanBytes(p, Flatten(chunks)), Feeds(p, [], chunks);
            && d.elems == r.elems
            && (d.phase.Bad? <==> r.phase.Bad? || (r.phase.Closed? && TailExamined(p, chunks) && !AllSeparators(r.rest)))
            && (!d.phase.Bad? ==> d.phase == r.phase && (!r.phase.Closed? ==> d.unread == []))
    decreases |chunks|
  {
    if chunks != [] {
      var c, later := chunks[0], chunks[1..];
      assert [] + c == c;
      if c == [] {
        assert Flatten(chunks) == Flatten(later);
        ChunkIndependent(p, later);
      } else {
        var r := ScanBytes(p, c);
        DrainIsRun(p, c);
        RunAppend(p, c, Flatten(later));
        if r.phase.Closed? {
          FeedsClosed(r.rest, later);
        } else if !r.phase.Bad? {
          ChunkIndependent(r.phase, later);
        }
      }
    }
  }
}

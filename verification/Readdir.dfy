/** Resumable directory listing: what `walk_children_inodes` owes its handler, for every RAFS
    version, and what a reader sees who stops and resumes at will. */
module Readdir {
  import opened Names

  /** `RafsInodeWalkAction`, or an error from the handler. */
  datatype Action = Continue | Break | Fail

  datatype Listed = Listed(name: Name, ino: nat)

  /** One handler call: the entry and the offset to resume after it. */
  datatype Visit = Visit(name: Name, ino: nat, offset: nat)

  datatype End = Finished | Stopped | Failed

  /** A handler decides from the calls it has received, the latest included. */
  type Handler = seq<Visit> -> Action

  function Tag(list: seq<Listed>, i: nat): Visit
    requires i < |list|
  {
    Visit(list[i].name, list[i].ino, i + 1)
  }

  /** The calls a walk of `list` from position `k` makes. */
  function WalkFrom(list: seq<Listed>, k: nat, decide: Handler, seen: seq<Visit>): (seq<Visit>, End)
    decreases |list| - k
  {
    if k >= |list| then (seen, Finished)
    else
      var calls := seen + [Tag(list, k)];
      match decide(calls)
      case Continue => WalkFrom(list, k + 1, decide, calls)
      case Break => (calls, Stopped)
      case Fail => (calls, Failed)
  }

  ghost function Tagged(list: seq<Listed>): seq<Visit> {
    seq(|list|, i requires 0 <= i < |list| => Tag(list, i))
  }

  ghost predicate AllContinue(decide: Handler, calls: seq<Visit>, from: nat, to: nat) {
    forall m | from < m <= to <= |calls| :: decide(calls[..m]) == Continue
  }

  /** A walk from offset `k` calls the handler with exactly the listing from entry `k` on, each entry
      tagged with its index plus one, until the first call that is not answered Continue. */
  lemma {:induction false} WalkDelivers(list: seq<Listed>, k: nat, decide: Handler, seen: seq<Visit>)
    requires k <= |list|
    ensures var (calls, end) := WalkFrom(list, k, decide, seen);
            && |calls| >= |seen| && |calls| - |seen| <= |list| - k
            && calls == seen + Tagged(list)[k..k + |calls| - |seen|]
            && (end == Finished ==> |calls| - |seen| == |list| - k && AllContinue(decide, calls, |seen|, |calls|))
            && (end != Finished ==>
                  && |calls| > |seen| && AllContinue(decide, calls, |seen|, |calls| - 1)
                  && decide(calls) == (if end == Stopped then Break else Fail))
    decreases |list| - k
  {
    if k < |list| {
      var t := Tagged(list);
      var next := seen + [t[k]];
      var (calls, end) := WalkFrom(list, k, decide, seen);
      if decide(next) == Continue {
        WalkDelivers(list, k + 1, decide, next);
        assert t[k..k + |calls| - |seen|] == [t[k]] + t[k + 1..k + 1 + |calls| - |next|];
        assert calls[..|next|] == next;
      } else {
        assert calls == next && calls[..|calls|] == calls;
      }
    }
  }

  // ----- Stopping and resuming ------------------------------------------------------------

  /** The entries one walk session accepted: a call answered Break was not stored, so the reader
      resumes after the last call answered Continue. */
  function Accepted(list: seq<Listed>, k: nat, decide: Handler): seq<Visit> {
    var (calls, end) := WalkFrom(list, k, decide, []);
    if end == Finished || calls == [] then calls else calls[..|calls| - 1]
  }

  function ResumeAt(k: nat, got: seq<Visit>): nat {
    if got == [] then k else got[|got| - 1].offset
  }

  /** Everything a reader accepts over a series of sessions, each resuming where the previous
      one left off. */
  function Sessions(list: seq<Listed>, k: nat, handlers: seq<Handler>): seq<Visit>
    decreases handlers
  {
    if handlers == [] then [] else
      var got := Accepted(list, k, handlers[0]);
      got + Sessions(list, ResumeAt(k, got), handlers[1..])
  }

  /** `got` is the part of the list that starts at `k`. */
  predicate IsPart(got: seq<Visit>, list: seq<Visit>, k: nat) {
    k + |got| <= |list| && got == list[k..k + |got|]
  }

  lemma PartsJoin(a: seq<Visit>, b: seq<Visit>, list: seq<Visit>, k: nat)
    requires IsPart(a, list, k) && IsPart(b, list, k + |a|)
    ensures IsPart(a + b, list, k)
  {
  }

  lemma AcceptedIsPart(list: seq<Listed>, k: nat, decide: Handler)
    requires k <= |list|
    ensures var got := Accepted(list, k, decide);
            IsPart(got, Tagged(list), k) && ResumeAt(k, got) == k + |got|
  {
    WalkDelivers(list, k, decide, []);
    var calls := WalkFrom(list, k, decide, []).0;
    assert IsPart(calls, Tagged(list), k);
    PartFront(calls, Tagged(list), k);
    ResumesBehind(list, k, Accepted(list, k, decide));
  }

  lemma PartFront(got: seq<Visit>, list: seq<Visit>, k: nat)
    requires IsPart(got, list, k)
    ensures got != [] ==> IsPart(got[..|got| - 1], list, k)
  {
  }

  lemma ResumesBehind(list: seq<Listed>, k: nat, got: seq<Visit>)
    requires IsPart(got, Tagged(list), k)
    ensures ResumeAt(k, got) == k + |got|
  {
    if got != [] { assert got[|got| - 1] == Tagged(list)[k + |got| - 1]; }
  }

  /** Whatever the pattern of stops, the reader receives the listing from its starting point on,
      every entry once and in order. */
  lemma {:induction false} SessionsListOnce(list: seq<Listed>, k: nat, handlers: seq<Handler>)
    requires k <= |list|
    ensures IsPart(Sessions(list, k, handlers), Tagged(list), k)
    decreases handlers
  {
    if handlers != [] {
      var got := Accepted(list, k, handlers[0]);
      AcceptedIsPart(list, k, handlers[0]);
      SessionsListOnce(list, k + |got|, handlers[1..]);
      PartsJoin(got, Sessions(list, k + |got|, handlers[1..]), Tagged(list), k);
    }
  }

  /** A session that is never stopped delivers all that is left. */
  lemma UnstoppedSessionCompletes(list: seq<Listed>, k: nat, decide: Handler)
    requires k <= |list| && forall calls :: decide(calls) == Continue
    ensures Accepted(list, k, decide) == Tagged(list)[k..]
  {
    WalkDelivers(list, k, decide, []);
  }
}

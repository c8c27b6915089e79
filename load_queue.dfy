/**
 * The order-preserving load queue: requests wait in the queue in the
 * order they were added, and a completed request leaves it only once
 * every request ahead of it has left.
 */
module LoadQueue {

  /**
   * One pending image fetch. `ticket` stands for the identity of the
   * browser image object, `loading` for its loadingImage flag and
   * `halfWidth` for the half-width it reports once it has loaded
   * (0 while it is still loading).
   */
  datatype Entry = Entry(ticket: nat, loading: bool, halfWidth: real)

  function Tickets(q: seq<Entry>): (ts: seq<nat>)
    ensures |ts| == |q|
    ensures forall i :: 0 <= i < |q| ==> ts[i] == q[i].ticket
  {
    seq(|q|, i requires 0 <= i < |q| => q[i].ticket)
  }

  /** The half-widths the entries carry, in queue order. */
  function Widths(q: seq<Entry>): (hws: seq<real>)
    ensures |hws| == |q|
    ensures forall i :: 0 <= i < |q| ==> hws[i] == q[i].halfWidth
  {
    seq(|q|, i requires 0 <= i < |q| => q[i].halfWidth)
  }

  lemma WidthsAppend(q: seq<Entry>, e: Entry)
    ensures Widths(q + [e]) == Widths(q) + [e.halfWidth]
  {
  }

  /** Moving the head of `q` to the end of `front` keeps the combined sequence. */
  lemma MoveHead(front: seq<Entry>, q: seq<Entry>)
    requires q != []
    ensures front + q == (front + [q[0]]) + q[1..]
  {
  }

  lemma AppendOne(a: seq<Entry>, b: seq<Entry>, e: Entry)
    ensures (a + b) + [e] == a + (b + [e])
  {
  }

  /**
   * The queue after the fetch of `ticket` completed with half-width
   * `half`: that entry, and only it, stops loading and records the width.
   */
  function MarkLoaded(q: seq<Entry>, ticket: nat, half: real): (r: seq<Entry>)
    ensures Tickets(r) == Tickets(q)
    ensures forall i :: 0 <= i < |q| ==> r[i].loading == (q[i].loading && q[i].ticket != ticket)
    ensures forall i :: 0 <= i < |q| && q[i].ticket != ticket ==> r[i] == q[i]
    ensures forall i :: 0 <= i < |q| && q[i].ticket == ticket ==> r[i].halfWidth == half
  {
    seq(|q|, i requires 0 <= i < |q| => if q[i].ticket == ticket then Entry(ticket, false, half) else q[i])
  }

  /**
   * How many entries the drain hands on: the length of the longest
   * prefix of entries that are no longer loading.
   */
  function ReadyPrefix(q: seq<Entry>): (n: nat)
    ensures n <= |q|
    ensures forall j :: 0 <= j < n ==> !q[j].loading
    ensures n < |q| ==> q[n].loading
  {
    if q == [] || q[0].loading then 0 else 1 + ReadyPrefix(q[1..])
  }

  /**
   * A queue that splits into a run of completed entries followed by
   * nothing or a loading entry drains exactly that run.
   */
  lemma ReadyPrefixSplit(done: seq<Entry>, rest: seq<Entry>)
    requires forall j :: 0 <= j < |done| ==> !done[j].loading
    requires rest == [] || rest[0].loading
    ensures ReadyPrefix(done + rest) == |done|
    ensures (done + rest)[..|done|] == done && (done + rest)[|done|..] == rest
  {
  }

  /** A completion that is not for the head of the queue releases nothing. */
  lemma CompletionBehindHeadWaits(q: seq<Entry>, ticket: nat, half: real)
    requires q != [] && q[0].loading && q[0].ticket != ticket
    ensures ReadyPrefix(MarkLoaded(q, ticket, half)) == 0
  {
  }

  /**
   * A completion for the head releases the head together with every
   * entry right behind it that had already completed.
   */
  lemma CompletionOfHeadReleases(q: seq<Entry>, half: real, k: nat)
    requires q != [] && k < |q|
    requires forall j :: 1 <= j <= k ==> !q[j].loading
    requires forall j :: 0 <= j < |q| ==> (q[j].ticket == q[0].ticket <==> j == 0)
    ensures ReadyPrefix(MarkLoaded(q, q[0].ticket, half)) > k
  {
  }
}

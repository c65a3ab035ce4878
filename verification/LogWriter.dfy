/** What a pass of the writer puts out: everything queued at the per-ring
    snapshots, oldest head first. */
module LogWriter {
  import opened LogRecord

  /** A line handed to the sinks, and the ring it came from. */
  datatype Line = Line(ring: nat, rec: Rec)

  /** A ring and the next of its records. */
  datatype Cursor = Cursor(ring: nat, at: nat)

  /** What was emitted from one ring, in order. */
  function From(out: seq<Line>, ring: nat): seq<Rec> {
    if out == [] then []
    else
      var init, last := out[..|out| - 1], out[|out| - 1];
      if last.ring == ring then From(init, ring) + [last.rec] else From(init, ring)
  }

  lemma FromAppend(out: seq<Line>, l: Line, ring: nat)
    ensures From(out + [l], ring) == if l.ring == ring then From(out, ring) + [l.rec] else From(out, ring)
  {
    assert (out + [l])[..|out|] == out;
  }

  /** The `j`-th line was its ring's next record, and no ring had an older head. */
  ghost predicate OldestHead(queues: seq<seq<Rec>>, out: seq<Line>, j: nat)
    requires j < |out|
  {
    var before, l := out[..j], out[j];
    && l.ring < |queues| && |From(before, l.ring)| < |queues[l.ring]|
    && l.rec == queues[l.ring][|From(before, l.ring)|]
    && forall i :: 0 <= i < |queues| && |From(before, i)| < |queues[i]| ==>
         l.rec.ts <= queues[i][|From(before, i)|].ts
  }

  ghost predicate Greedy(queues: seq<seq<Rec>>, out: seq<Line>) {
    forall j :: 0 <= j < |out| ==> OldestHead(queues, out, j)
  }

  /** Every ring was emptied, in its own order. */
  ghost predicate Complete(queues: seq<seq<Rec>>, out: seq<Line>) {
    forall i :: 0 <= i < |queues| ==> From(out, i) == queues[i]
  }

  // ---- the merge loop ----

  ghost predicate Tracked(cur: seq<Cursor>, ring: nat) { exists c :: 0 <= c < |cur| && cur[c].ring == ring }

  /** The cursors in use point at the next record of different rings; a ring
      without one is emptied. */
  ghost predicate CursorsOk(queues: seq<seq<Rec>>, cur: seq<Cursor>, out: seq<Line>) {
    && (forall c :: 0 <= c < |cur| ==>
          && cur[c].ring < |queues| && cur[c].at < |queues[cur[c].ring]|
          && cur[c].at == |From(out, cur[c].ring)|)
    && (forall c, d :: 0 <= c < d < |cur| ==> cur[c].ring != cur[d].ring)
    && (forall i :: 0 <= i < |queues| && |From(out, i)| < |queues[i]| ==> Tracked(cur, i))
    && (forall i :: 0 <= i < |queues| ==> From(out, i) <= queues[i])
  }

  function NextOf(queues: seq<seq<Rec>>, c: Cursor): Rec
    requires c.ring < |queues| && c.at < |queues[c.ring]|
  {
    queues[c.ring][c.at]
  }

  /** Records not emitted yet: what the loop's end depends on. */
  function Left(queues: seq<seq<Rec>>, cur: seq<Cursor>): nat
    requires forall c :: 0 <= c < |cur| ==> cur[c].ring < |queues| && cur[c].at < |queues[cur[c].ring]|
  {
    if cur == [] then 0
    else
      var init, last := cur[..|cur| - 1], cur[|cur| - 1];
      Left(queues, init) + |queues[last.ring]| - last.at
  }

  lemma {:induction false} LeftAdvance(queues: seq<seq<Rec>>, cur: seq<Cursor>, k: nat)
    requires forall c :: 0 <= c < |cur| ==> cur[c].ring < |queues| && cur[c].at < |queues[cur[c].ring]|
    requires k < |cur| && cur[k].at + 1 < |queues[cur[k].ring]|
    ensures Left(queues, cur[k := Cursor(cur[k].ring, cur[k].at + 1)]) == Left(queues, cur) - 1
    decreases |cur|
  {
    var n := |cur| - 1;
    var next := cur[k := Cursor(cur[k].ring, cur[k].at + 1)];
    if k < n {
      assert next[..n] == cur[..n][k := next[k]];
      LeftAdvance(queues, cur[..n], k);
    } else {
      assert next[..n] == cur[..n];
    }
  }

  /** `g_cur[k] = g_cur[--n]` */
  function Drop<T>(cur: seq<T>, k: nat): seq<T>
    requires k < |cur|
  {
    cur[k := cur[|cur| - 1]][..|cur| - 1]
  }

  lemma {:induction false} LeftDrop(queues: seq<seq<Rec>>, cur: seq<Cursor>, k: nat)
    requires forall c :: 0 <= c < |cur| ==> cur[c].ring < |queues| && cur[c].at < |queues[cur[c].ring]|
    requires k < |cur|
    ensures Left(queues, Drop(cur, k)) == Left(queues, cur) - (|queues[cur[k].ring]| - cur[k].at)
    decreases |cur|
  {
    var n := |cur| - 1;
    if k < n {
      LeftSet(queues, cur[..n], k, cur[n]);
      assert Drop(cur, k) == cur[..n][k := cur[n]];
    } else {
      assert Drop(cur, k) == cur[..n];
    }
  }

  lemma {:induction false} LeftSet(queues: seq<seq<Rec>>, cur: seq<Cursor>, k: nat, v: Cursor)
    requires forall c :: 0 <= c < |cur| ==> cur[c].ring < |queues| && cur[c].at < |queues[cur[c].ring]|
    requires k < |cur| && v.ring < |queues| && v.at < |queues[v.ring]|
    ensures Left(queues, cur[k := v]) ==
            Left(queues, cur) - (|queues[cur[k].ring]| - cur[k].at) + (|queues[v.ring]| - v.at)
    decreases |cur|
  {
    var n := |cur| - 1;
    if k < n {
      assert cur[k := v][..n] == cur[..n][k := v];
      LeftSet(queues, cur[..n], k, v);
    } else {
      assert cur[k := v][..n] == cur[..n];
    }
  }

  /** The smallest head goes out; nothing that was emitted before changes. */
  lemma EmitOldest(queues: seq<seq<Rec>>, cur: seq<Cursor>, out: seq<Line>, k: nat)
    requires CursorsOk(queues, cur, out) && Greedy(queues, out) && k < |cur|
    requires forall c :: 0 <= c < |cur| ==> NextOf(queues, cur[k]).ts <= NextOf(queues, cur[c]).ts
    ensures Greedy(queues, out + [Line(cur[k].ring, NextOf(queues, cur[k]))])
  {
    hide From;
    var l := Line(cur[k].ring, NextOf(queues, cur[k]));
    var out' := out + [l];
    forall j | 0 <= j < |out'| ensures OldestHead(queues, out', j) {
      if j < |out| {
        assert OldestHead(queues, out, j);
        assert out'[..j] == out[..j];
      } else {
        assert out'[..j] == out;
      }
    }
  }

  /** The cursors after ring `cur[k].ring` gave its head. */
  lemma AdvanceOk(queues: seq<seq<Rec>>, cur: seq<Cursor>, out: seq<Line>, k: nat)
    requires CursorsOk(queues, cur, out) && k < |cur|
    ensures var c := cur[k]; var out' := out + [Line(c.ring, NextOf(queues, c))];
            && (c.at + 1 < |queues[c.ring]| ==> CursorsOk(queues, cur[k := Cursor(c.ring, c.at + 1)], out'))
            && (c.at + 1 == |queues[c.ring]| ==> CursorsOk(queues, Drop(cur, k), out'))
  {
    hide From, Tracked;
    var c := cur[k];
    var l := Line(c.ring, NextOf(queues, c));
    forall i ensures From(out + [l], i) == if i == c.ring then From(out, i) + [l.rec] else From(out, i) {
      FromAppend(out, l, i);
    }
    StillTracked(queues, cur, out, out + [l], k);
  }

  /** Every ring with something left still has its cursor. */
  lemma StillTracked(queues: seq<seq<Rec>>, cur: seq<Cursor>, out: seq<Line>, out': seq<Line>, k: nat)
    requires CursorsOk(queues, cur, out) && k < |cur|
    requires forall i :: From(out', i) == if i == cur[k].ring then From(out, i) + [NextOf(queues, cur[k])] else From(out, i)
    ensures forall i :: 0 <= i < |queues| && |From(out', i)| < |queues[i]| ==>
              && Tracked(cur[k := Cursor(cur[k].ring, cur[k].at + 1)], i)
              && (cur[k].at + 1 == |queues[cur[k].ring]| ==> Tracked(Drop(cur, k), i))
  {
    hide From;
    forall i | 0 <= i < |queues| && |From(out', i)| < |queues[i]|
      ensures Tracked(cur[k := Cursor(cur[k].ring, cur[k].at + 1)], i)
      ensures cur[k].at + 1 == |queues[cur[k].ring]| ==> Tracked(Drop(cur, k), i)
    {
      var c :| 0 <= c < |cur| && cur[c].ring == i;
      assert cur[k := Cursor(cur[k].ring, cur[k].at + 1)][c].ring == i;
      if cur[k].at + 1 == |queues[cur[k].ring]| {
        assert c != k;
        assert Drop(cur, k)[if c == |cur| - 1 then k else c].ring == i;
      }
    }
  }

  /** One cursor for each non-empty ring below `i`. */
  ghost predicate Listed(queues: seq<seq<Rec>>, cur: seq<Cursor>, i: nat)
    requires i <= |queues|
  {
    && (forall c :: 0 <= c < |cur| ==> cur[c].ring < i && cur[c].at == 0 && Waits(queues, cur[c].ring))
    && (forall c, d :: 0 <= c < d < |cur| ==> cur[c].ring < cur[d].ring)
    && (forall r: nat :: r < i && Waits(queues, r) ==> Tracked(cur, r))
  }

  predicate Waits(queues: seq<seq<Rec>>, r: nat) { r < |queues| && queues[r] != [] }

  lemma TrackedOn(cur: seq<Cursor>, x: Cursor, r: nat)
    requires Tracked(cur, r) || x.ring == r
    ensures Tracked(cur + [x], r)
  {
    if x.ring == r {
      assert (cur + [x])[|cur|].ring == r;
    } else {
      var c :| 0 <= c < |cur| && cur[c].ring == r;
      assert (cur + [x])[c].ring == r;
    }
  }

  lemma ListOne(queues: seq<seq<Rec>>, cur: seq<Cursor>, i: nat)
    requires i < |queues| && Listed(queues, cur, i)
    ensures Listed(queues, if queues[i] == [] then cur else cur + [Cursor(i, 0)], i + 1)
  {
    var x := Cursor(i, 0);
    assert Waits(queues, i) <==> queues[i] != [];
    hide Waits, Tracked;
    forall r: nat | r < i + 1 && Waits(queues, i) && Waits(queues, r) ensures Tracked(cur + [x], r) {
      TrackedOn(cur, x, r);
    }
  }

  lemma NoneListed(queues: seq<seq<Rec>>)
    ensures Listed(queues, [], 0)
  {
  }

  /** Where the loop stands after its `k`-th cursor gave its head. */
  function Advance(queues: seq<seq<Rec>>, cur: seq<Cursor>, k: nat): seq<Cursor>
    requires k < |cur| && cur[k].ring < |queues| && cur[k].at < |queues[cur[k].ring]|
  {
    if cur[k].at + 1 == |queues[cur[k].ring]| then Drop(cur, k) else cur[k := Cursor(cur[k].ring, cur[k].at + 1)]
  }

  ghost predicate PassOk(queues: seq<seq<Rec>>, cur: seq<Cursor>, out: seq<Line>) {
    CursorsOk(queues, cur, out) && Greedy(queues, out)
  }

  /** One round of the loop, as a whole. */
  lemma RoundOk(queues: seq<seq<Rec>>, cur: seq<Cursor>, out: seq<Line>, k: nat)
    requires PassOk(queues, cur, out) && k < |cur|
    requires forall c :: 0 <= c < |cur| ==> NextOf(queues, cur[k]).ts <= NextOf(queues, cur[c]).ts
    ensures PassOk(queues, Advance(queues, cur, k), out + [Line(cur[k].ring, NextOf(queues, cur[k]))])
    ensures Remaining(queues, Advance(queues, cur, k)) < Remaining(queues, cur)
  {
    hide From, Greedy, CursorsOk, Left, Drop;
    Shape(queues, cur, out);
    EmitOldest(queues, cur, out, k);
    AdvanceOk(queues, cur, out, k);
    if cur[k].at + 1 == |queues[cur[k].ring]| {
      LeftDrop(queues, cur, k);
    } else {
      LeftAdvance(queues, cur, k);
    }
    Shape(queues, Advance(queues, cur, k), out + [Line(cur[k].ring, NextOf(queues, cur[k]))]);
  }

  /** `Left`, where it is defined. */
  function Remaining(queues: seq<seq<Rec>>, cur: seq<Cursor>): nat {
    if forall c :: 0 <= c < |cur| ==> cur[c].ring < |queues| && cur[c].at < |queues[cur[c].ring]|
    then Left(queues, cur) else 0
  }

  lemma Shape(queues: seq<seq<Rec>>, cur: seq<Cursor>, out: seq<Line>)
    requires PassOk(queues, cur, out)
    ensures forall c :: 0 <= c < |cur| ==> cur[c].ring < |queues| && cur[c].at < |queues[cur[c].ring]|
  {
  }

  lemma StartOk(queues: seq<seq<Rec>>, cur: seq<Cursor>)
    requires Listed(queues, cur, |queues|)
    ensures PassOk(queues, cur, [])
  {
  }

  lemma DoneIsComplete(queues: seq<seq<Rec>>, cur: seq<Cursor>, out: seq<Line>)
    requires PassOk(queues, cur, out) && cur == []
    ensures Complete(queues, out) && Greedy(queues, out)
  {
    hide From, Greedy;
  }

  // ---- what a greedy merge means ----

  ghost predicate SortedRecs(q: seq<Rec>) { forall i, j :: 0 <= i < j < |q| ==> q[i].ts <= q[j].ts }

  ghost predicate SortedLines(out: seq<Line>) { forall i, j :: 0 <= i < j < |out| ==> out[i].rec.ts <= out[j].rec.ts }

  lemma NeighboursSorted(queues: seq<seq<Rec>>, out: seq<Line>, j: nat)
    requires Greedy(queues, out) && j + 1 < |out|
    requires forall i :: 0 <= i < |queues| ==> SortedRecs(queues[i])
    ensures out[j].rec.ts <= out[j + 1].rec.ts
  {
    hide From;
    var a, b := out[j], out[j + 1];
    assert OldestHead(queues, out, j) && OldestHead(queues, out, j + 1);
    assert out[..j + 1] == out[..j] + [a];
    FromAppend(out[..j], a, b.ring);
  }

  /** SORTED. When every ring's own stamps do not go back, neither does the output. */
  lemma {:induction false} MergeIsSorted(queues: seq<seq<Rec>>, out: seq<Line>)
    requires Greedy(queues, out)
    requires forall i :: 0 <= i < |queues| ==> SortedRecs(queues[i])
    ensures SortedLines(out)
  {
    forall i, j | 0 <= i < j < |out| ensures out[i].rec.ts <= out[j].rec.ts {
      SortedUpTo(queues, out, i, j);
    }
  }

  lemma {:induction false} SortedUpTo(queues: seq<seq<Rec>>, out: seq<Line>, i: nat, j: nat)
    requires Greedy(queues, out) && i <= j < |out|
    requires forall i :: 0 <= i < |queues| ==> SortedRecs(queues[i])
    ensures out[i].rec.ts <= out[j].rec.ts
    decreases j - i
  {
    hide Greedy;
    if i < j {
      SortedUpTo(queues, out, i, j - 1);
      NeighboursSorted(queues, out, j - 1);
    }
  }

  /** NOTHING LOST, NOTHING TWICE. A complete merge has exactly the queued lines. */
  lemma {:induction false} MergeCounts(queues: seq<seq<Rec>>, out: seq<Line>, l: Line)
    requires Complete(queues, out) && Greedy(queues, out)
    ensures l.ring < |queues| ==> multiset(out)[l] == multiset(queues[l.ring])[l.rec]
    ensures l.ring >= |queues| ==> l !in out
  {
    CountFrom(out, l);
    if l in out {
      var j :| 0 <= j < |out| && out[j] == l;
      assert OldestHead(queues, out, j);
    }
  }

  lemma {:induction false} CountFrom(out: seq<Line>, l: Line)
    ensures multiset(out)[l] == multiset(From(out, l.ring))[l.rec]
    decreases |out|
  {
    if out != [] {
      var init, last := out[..|out| - 1], out[|out| - 1];
      CountFrom(init, l);
      assert out == init + [last];
    }
  }
}

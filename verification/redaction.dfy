/** Span merging and bounded rendering of the redactor
    (packages/harness-plugin/src/redaction/redact-event.ts, lines 174 to 205).
    A JavaScript string is a sequence of UTF-16 code units. */
module Redaction {

  type Unit = u: int | 0 <= u < 65536

  /** A replacement of raw[start..end] by a text. */
  datatype Span = Span(start: nat, end: nat, value: seq<Unit>)

  predicate SpansOk(raw: seq<Unit>, spans: seq<Span>) {
    forall i :: 0 <= i < |spans| ==> spans[i].start < spans[i].end <= |raw|
  }

  predicate Covered(spans: seq<Span>, p: int) {
    exists i :: 0 <= i < |spans| && spans[i].start <= p < spans[i].end
  }

  // ----- sorting -----

  /** The comparator does not put `a` after `b`. */
  predicate Before(a: Span, b: Span) { a.start < b.start || (a.start == b.start && a.end >= b.end) }

  predicate Sorted(spans: seq<Span>) { forall i, j :: 0 <= i < j < |spans| ==> Before(spans[i], spans[j]) }

  function Insert(sorted: seq<Span>, x: Span): seq<Span> {
    if sorted == [] then [x]
    else
      var last := sorted[|sorted| - 1];
      if Before(last, x) then sorted + [x] else Insert(sorted[..|sorted| - 1], x) + [last]
  }

  /** Array.prototype.sort: stable. */
  function Sort(spans: seq<Span>): seq<Span> {
    if spans == [] then [] else Insert(Sort(spans[..|spans| - 1]), spans[|spans| - 1])
  }

  lemma {:induction false} InsertAdds(sorted: seq<Span>, x: Span)
    ensures multiset(Insert(sorted, x)) == multiset(sorted) + multiset{x}
  {
    if sorted != [] {
      var init, last := sorted[..|sorted| - 1], sorted[|sorted| - 1];
      assert sorted == init + [last];
      if !Before(last, x) { InsertAdds(init, x); }
    }
  }

  lemma {:induction false} InsertSorts(sorted: seq<Span>, x: Span)
    requires Sorted(sorted)
    ensures Sorted(Insert(sorted, x))
  {
    if sorted != [] {
      var init, last := sorted[..|sorted| - 1], sorted[|sorted| - 1];
      if Before(last, x) {
        assert forall i :: 0 <= i < |sorted| ==> Before(sorted[i], x);
      } else {
        InsertSorts(init, x);
        InsertAdds(init, x);
        var r := Insert(init, x);
        hide Insert;
        forall i | 0 <= i < |r| ensures Before(r[i], last) { AmongInserted(init, x, r, i); }
      }
    }
  }

  lemma AmongInserted(init: seq<Span>, x: Span, r: seq<Span>, i: nat)
    requires i < |r| && multiset(r) == multiset(init) + multiset{x}
    ensures r[i] == x || r[i] in init
  {
    assert r[i] in multiset(r);
  }

  lemma {:induction false} SortSorts(spans: seq<Span>)
    ensures Sorted(Sort(spans)) && multiset(Sort(spans)) == multiset(spans)
  {
    hide Sorted, Insert;
    if spans == [] {
      SortedEmpty();
    } else {
      var init, last := spans[..|spans| - 1], spans[|spans| - 1];
      SortSorts(init);
      InsertSorts(Sort(init), last);
      InsertAdds(Sort(init), last);
      assert spans == init + [last];
    }
  }

  lemma SortedEmpty()
    ensures Sorted([])
  {}

  lemma CoveredAmong(a: seq<Span>, b: seq<Span>, p: int)
    requires multiset(a) == multiset(b) && Covered(a, p)
    ensures Covered(b, p)
  {
    var i :| 0 <= i < |a| && a[i].start <= p < a[i].end;
    assert a[i] in multiset(b);
    var j :| 0 <= j < |b| && b[j] == a[i];
  }

  lemma OkAmong(raw: seq<Unit>, a: seq<Span>, b: seq<Span>)
    requires multiset(a) == multiset(b) && SpansOk(raw, a)
    ensures SpansOk(raw, b)
  {
    forall i | 0 <= i < |b| ensures b[i].start < b[i].end <= |raw| {
      assert b[i] in multiset(a);
      var j :| 0 <= j < |a| && a[j] == b[i];
    }
  }

  /** Sorting permutes: the same spans, the same coverage. */
  lemma SortCovers(raw: seq<Unit>, spans: seq<Span>, p: int)
    ensures Covered(Sort(spans), p) <==> Covered(spans, p)
    ensures SpansOk(raw, spans) ==> SpansOk(raw, Sort(spans))
  {
    hide Sort, Covered, SpansOk;
    SortSorts(spans);
    if Covered(spans, p) { CoveredAmong(spans, Sort(spans), p); }
    if Covered(Sort(spans), p) { CoveredAmong(Sort(spans), spans, p); }
    if SpansOk(raw, spans) { OkAmong(raw, spans, Sort(spans)); }
  }

  // ----- merging -----

  const REDACTED: seq<Unit> := [91, 114, 101, 100, 97, 99, 116, 101, 100, 93]

  /** The mark as text. */
  lemma MarkIsText()
    ensures |REDACTED| == |"[redacted]"| && forall i :: 0 <= i < |REDACTED| ==> REDACTED[i] == "[redacted]"[i] as int
  {}

  function MergeOne(merged: seq<Span>, next: Span): seq<Span> {
    if merged != [] && next.start < merged[|merged| - 1].end then
      var previous := merged[|merged| - 1];
      merged[..|merged| - 1]
        + [Span(previous.start, if previous.end >= next.end then previous.end else next.end, REDACTED)]
    else merged + [next]
  }

  function MergeAll(spans: seq<Span>): seq<Span> {
    if spans == [] then [] else MergeOne(MergeAll(spans[..|spans| - 1]), spans[|spans| - 1])
  }

  /** One replacement: widen the last span, or start another. */
  method Absorb(merged: seq<Span>, next: Span) returns (r: seq<Span>)
    ensures r == MergeOne(merged, next)
  {
    if merged != [] && next.start < merged[|merged| - 1].end {
      var previous := merged[|merged| - 1];
      r := merged[|merged| - 1 := Span(previous.start, if previous.end >= next.end then previous.end else next.end,
                                       REDACTED)];
    } else {
      r := merged + [next];
    }
  }

  /** The source's loop over the sorted replacements. */
  method Merge(sorted: seq<Span>) returns (merged: seq<Span>)
    ensures merged == MergeAll(sorted)
  {
    merged := [];
    for i := 0 to |sorted|
      invariant merged == MergeAll(sorted[..i])
    {
      hide MergeOne;
      assert sorted[..i + 1][..i] == sorted[..i] && sorted[..i + 1][i] == sorted[i];
      merged := Absorb(merged, sorted[i]);
    }
    assert sorted[..|sorted|] == sorted;
  }

  /** In order, non-empty and not overlapping. */
  predicate Apart(raw: seq<Unit>, merged: seq<Span>) {
    && SpansOk(raw, merged)
    && forall i, j :: 0 <= i < j < |merged| ==> merged[i].end <= merged[j].start
  }

  lemma MergeOneApart(raw: seq<Unit>, merged: seq<Span>, next: Span)
    requires Apart(raw, merged) && next.start < next.end <= |raw|
    requires merged != [] ==> merged[|merged| - 1].start <= next.start
    ensures var r := MergeOne(merged, next); Apart(raw, r) && r != [] && r[|r| - 1].start <= next.start
  {
    var r, n := MergeOne(merged, next), |merged|;
    if n > 0 && next.start < merged[n - 1].end {
      assert |r| == n && r[n - 1].start == merged[n - 1].start && merged[n - 1].start < r[n - 1].end <= |raw|;
      assert forall i :: 0 <= i < n - 1 ==> r[i] == merged[i];
    } else {
      assert |r| == n + 1 && r[n] == next && forall i :: 0 <= i < n ==> r[i] == merged[i];
    }
    hide MergeOne;
  }

  lemma MergeOneCovers(raw: seq<Unit>, merged: seq<Span>, next: Span, p: int)
    requires Apart(raw, merged) && (merged != [] ==> merged[|merged| - 1].start <= next.start)
    ensures Covered(MergeOne(merged, next), p) <==> Covered(merged, p) || next.start <= p < next.end
  {
    var r, n := MergeOne(merged, next), |merged|;
    if n > 0 && next.start < merged[n - 1].end {
      assert forall i :: 0 <= i < n - 1 ==> r[i] == merged[i];
      assert r[n - 1].start <= p < r[n - 1].end
             <==> merged[n - 1].start <= p < merged[n - 1].end || next.start <= p < next.end;
      if Covered(r, p) {
        var i :| 0 <= i < |r| && r[i].start <= p < r[i].end;
        if i < n - 1 { assert merged[i].start <= p < merged[i].end; }
      }
      if Covered(merged, p) {
        var i :| 0 <= i < n && merged[i].start <= p < merged[i].end;
        if i < n - 1 { assert r[i].start <= p < r[i].end; }
      }
    } else {
      assert r[n] == next && forall i :: 0 <= i < n ==> r[i] == merged[i];
      if Covered(merged, p) {
        var i :| 0 <= i < n && merged[i].start <= p < merged[i].end;
        assert r[i].start <= p < r[i].end;
      }
    }
  }

  lemma CoveredOneMore(spans: seq<Span>, p: int)
    requires spans != []
    ensures var init, last := spans[..|spans| - 1], spans[|spans| - 1];
            Covered(spans, p) <==> Covered(init, p) || last.start <= p < last.end
  {
    var init := spans[..|spans| - 1];
    if Covered(init, p) {
      var i :| 0 <= i < |init| && init[i].start <= p < init[i].end;
      assert spans[i] == init[i];
    }
    if Covered(spans, p) {
      var i :| 0 <= i < |spans| && spans[i].start <= p < spans[i].end;
      if i < |init| { assert init[i] == spans[i]; }
    }
  }

  lemma NothingApart(raw: seq<Unit>)
    ensures Apart(raw, [])
  {}

  lemma WithoutLast(raw: seq<Unit>, spans: seq<Span>)
    requires SpansOk(raw, spans) && Sorted(spans) && spans != []
    ensures var init, last := spans[..|spans| - 1], spans[|spans| - 1];
            && SpansOk(raw, init) && Sorted(init) && last.start < last.end <= |raw|
            && (init != [] ==> init[|init| - 1].start <= last.start)
  {
    var init, last := spans[..|spans| - 1], spans[|spans| - 1];
    if init != [] { assert Before(spans[|init| - 1], last); }
  }

  /** Merging sorted spans leaves them in order and apart, covering exactly what
      they covered. */
  lemma {:induction false} MergeAllKeeps(raw: seq<Unit>, spans: seq<Span>, p: int)
    requires SpansOk(raw, spans) && Sorted(spans)
    ensures var m := MergeAll(spans);
            && Apart(raw, m) && (Covered(m, p) <==> Covered(spans, p))
            && (spans != [] ==> m != [] && m[|m| - 1].start <= spans[|spans| - 1].start)
  {
    hide MergeOne, Covered, Apart, Sorted, SpansOk, Before;
    if spans == [] {
      NothingApart(raw);
    } else {
      var init, last := spans[..|spans| - 1], spans[|spans| - 1];
      WithoutLast(raw, spans);
      MergeAllKeeps(raw, init, p);
      var m := MergeAll(init);
      MergeOneApart(raw, m, last);
      MergeOneCovers(raw, m, last, p);
      CoveredOneMore(spans, p);
    }
  }

  // ----- which spans are merged -----

  predicate Overlap(a: Span, b: Span) { a.start < b.end && b.start < a.end }

  /** No other span of the list overlaps this one. */
  predicate Alone(spans: seq<Span>, k: int)
    requires 0 <= k < |spans|
  {
    forall l :: 0 <= l < |spans| && l != k ==> !Overlap(spans[k], spans[l])
  }

  /** Spans that overlap no other are kept as they are, and every other one is part
      of a merged span that shows the mark. */
  ghost predicate MergedRightly(spans: seq<Span>, m: seq<Span>) {
    && (forall k :: 0 <= k < |spans| && Alone(spans, k) ==> spans[k] in m)
    && (forall j :: 0 <= j < |m| ==>
          m[j].value == REDACTED || exists k :: 0 <= k < |spans| && Alone(spans, k) && m[j] == spans[k])
  }

  lemma AloneBefore(spans: seq<Span>, next: Span, k: nat)
    requires k < |spans| && Alone(spans + [next], k)
    ensures Alone(spans, k) && !Overlap(spans[k], next)
  {
    var all := spans + [next];
    assert all[|spans|] == next && forall l :: 0 <= l < |spans| ==> all[l] == spans[l];
  }

  lemma AloneAfter(spans: seq<Span>, next: Span, k: nat)
    requires k < |spans| && Alone(spans, k) && !Overlap(spans[k], next)
    ensures Alone(spans + [next], k) && (spans + [next])[k] == spans[k]
  {}

  /** The spans merged so far end where the last merged span ends. */
  lemma EndsBefore(raw: seq<Unit>, spans: seq<Span>, m: seq<Span>, k: nat)
    requires SpansOk(raw, spans) && Apart(raw, m) && k < |spans| && (forall p :: Covered(spans, p) ==> Covered(m, p))
    ensures m != [] && spans[k].end <= m[|m| - 1].end
  {
    var p := spans[k].end - 1;
    assert Covered(spans, p);
    var i :| 0 <= i < |m| && m[i].start <= p < m[i].end;
    assert i < |m| - 1 ==> m[i].end <= m[|m| - 1].start;
  }

  lemma MergeStepRight(raw: seq<Unit>, spans: seq<Span>, m: seq<Span>, next: Span)
    requires MergedRightly(spans, m) && SpansOk(raw, spans) && Apart(raw, m) && next.start < next.end <= |raw|
    requires forall p :: Covered(spans, p) <==> Covered(m, p)
    requires m != [] ==> m[|m| - 1].start <= next.start
    ensures MergedRightly(spans + [next], MergeOne(m, next))
  {
    if m != [] && next.start < m[|m| - 1].end {
      OverlapsRight(raw, spans, m, next);
    } else {
      var all, r := spans + [next], MergeOne(m, next);
      assert r == m + [next] && r[|m|] == next && all[|spans|] == next;
      forall k | 0 <= k < |spans| ensures !Overlap(spans[k], next) { EndsBefore(raw, spans, m, k); }
      assert Alone(all, |spans|);
      forall k | 0 <= k < |all| && Alone(all, k) ensures all[k] in r {
        if k < |spans| {
          AloneBefore(spans, next, k);
          assert spans[k] in m;
        }
      }
      forall j | 0 <= j < |r| && r[j].value != REDACTED
        ensures exists k :: 0 <= k < |all| && Alone(all, k) && r[j] == all[k]
      {
        if j < |m| {
          var k :| 0 <= k < |spans| && Alone(spans, k) && m[j] == spans[k];
          AloneAfter(spans, next, k);
          assert r[j] == all[k];
        } else {
          assert r[j] == all[|spans|];
        }
      }
    }
  }

  lemma OverlapsRight(raw: seq<Unit>, spans: seq<Span>, m: seq<Span>, next: Span)
    requires MergedRightly(spans, m) && SpansOk(raw, spans) && Apart(raw, m) && next.start < next.end <= |raw|
    requires forall p :: Covered(spans, p) <==> Covered(m, p)
    requires m != [] && m[|m| - 1].start <= next.start < m[|m| - 1].end
    ensures MergedRightly(spans + [next], MergeOne(m, next))
  {
    var all, r, n := spans + [next], MergeOne(m, next), |m| - 1;
    assert all[|spans|] == next && |r| == |m| && r[n].value == REDACTED && forall j :: 0 <= j < n ==> r[j] == m[j];
    assert Covered(m, next.start) && Covered(spans, next.start);
    var w :| 0 <= w < |spans| && spans[w].start <= next.start < spans[w].end;
    assert Overlap(next, spans[w]) && all[w] == spans[w];
    assert !Alone(all, |spans|);
    forall k | 0 <= k < |all| && Alone(all, k) ensures all[k] in r {
      AloneBefore(spans, next, k);
      var j :| 0 <= j < |m| && m[j] == spans[k];
      assert j != n;
      assert r[j] == m[j];
    }
    forall j | 0 <= j < |r| && r[j].value != REDACTED
      ensures exists k :: 0 <= k < |all| && Alone(all, k) && r[j] == all[k]
    {
      var k :| 0 <= k < |spans| && Alone(spans, k) && m[j] == spans[k];
      assert m[j].end <= m[n].start;
      AloneAfter(spans, next, k);
      assert r[j] == all[k];
    }
  }

  lemma {:induction false} MergesRightly(raw: seq<Unit>, spans: seq<Span>)
    requires SpansOk(raw, spans) && Sorted(spans)
    ensures MergedRightly(spans, MergeAll(spans))
  {
    if spans != [] {
      var init, last := spans[..|spans| - 1], spans[|spans| - 1];
      WithoutLast(raw, spans);
      MergesRightly(raw, init);
      var m := MergeAll(init);
      forall p ensures Covered(init, p) <==> Covered(m, p) { MergeAllKeeps(raw, init, p); }
      MergeAllKeeps(raw, init, 0);
      assert spans == init + [last];
      hide MergedRightly, MergeOne, Covered;
      MergeStepRight(raw, init, m, last);
    }
  }
}

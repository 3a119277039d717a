/** Bounded rendering of a text with its merged replacements
    (packages/harness-plugin/src/redaction/redact-event.ts, lines 186 to 203). */
module Rendering {
  import opened Utf8
  import opened Redaction

  const MAX_RENDERED_BYTES: nat := 500

  // ----- code points of a string -----

  predicate High(u: Unit) { 0xD800 <= u < 0xDC00 }
  predicate Low(u: Unit) { 0xDC00 <= u < 0xE000 }

  /** How many units the point at the front takes: a lone surrogate is a point. */
  function Width(s: seq<Unit>): (n: nat)
    requires s != []
    ensures 1 <= n <= 2 && n <= |s|
  {
    if |s| >= 2 && High(s[0]) && Low(s[1]) then 2 else 1
  }

  function CodePoint(point: seq<Unit>): int
    requires 1 <= |point| <= 2
  {
    var first: int := point[0];
    if |point| == 2 then 0x10000 + (first - 0xD800) * 0x400 + (point[1] as int - 0xDC00) else first
  }

  /** Characters of the Unicode category Cc. */
  predicate Control(p: int) { 0 <= p < 32 || 127 <= p < 160 }

  /** A control character is shown as a space. */
  function Safe(point: seq<Unit>): (r: seq<Unit>)
    requires 1 <= |point| <= 2
    ensures 1 <= |r| <= 2
  {
    if Control(CodePoint(point)) then [32] else point
  }

  /** Buffer.byteLength of one point; a lone surrogate counts as U+FFFD. */
  function ByteLength(point: seq<Unit>): nat
    requires 1 <= |point| <= 2
  {
    if |point| == 2 then 4 else if point[0] < 0x80 then 1 else if point[0] < 0x800 then 2 else 3
  }

  predicate WholePoint(point: seq<Unit>) {
    (|point| == 1) || (|point| == 2 && High(point[0]) && Low(point[1]))
  }

  /** The byte count is the length of the UTF-8 encoding. */
  lemma ByteLengthIsUtf8(point: seq<Unit>)
    requires WholePoint(point) && Scalar(CodePoint(point))
    ensures ByteLength(point) == |EncodePoint(CodePoint(point))|
  {}

  /** What a string shows, point by point. */
  function Shown(s: seq<Unit>): (ps: seq<seq<Unit>>)
    ensures forall i :: 0 <= i < |ps| ==> 1 <= |ps[i]| <= 2
  {
    if s == [] then [] else [Safe(s[..Width(s)])] + Shown(s[Width(s)..])
  }

  function Join(ps: seq<seq<Unit>>): seq<Unit> {
    if ps == [] then [] else Join(ps[..|ps| - 1]) + ps[|ps| - 1]
  }

  predicate Points(ps: seq<seq<Unit>>) { forall i :: 0 <= i < |ps| ==> 1 <= |ps[i]| <= 2 }

  function TotalBytes(ps: seq<seq<Unit>>): nat
    requires Points(ps)
  {
    if ps == [] then 0 else TotalBytes(ps[..|ps| - 1]) + ByteLength(ps[|ps| - 1])
  }

  // ----- the whole rendering, unbounded -----

  /** Everything outside the spans, and every replacement, in order. */
  function Full(raw: seq<Unit>, merged: seq<Span>, cursor: nat): (ps: seq<seq<Unit>>)
    requires Apart(raw, merged) && cursor <= |raw| && (merged != [] ==> cursor <= merged[0].start)
    ensures Points(ps)
    decreases |merged|
  {
    if merged == [] then Shown(raw[cursor..])
    else Shown(raw[cursor..merged[0].start]) + Shown(merged[0].value) + Full(raw, merged[1..], merged[0].end)
  }

  /** The longest prefix of whole points within the limit. */
  predicate LongestPrefix(all: seq<seq<Unit>>, n: nat)
    requires Points(all)
  {
    && n <= |all| && TotalBytes(all[..n]) <= 500
    && (n < |all| ==> TotalBytes(all[..n + 1]) > 500)
  }

  /** The result is the longest such prefix of the whole. */
  ghost predicate IsLongest(all: seq<seq<Unit>>, result: seq<Unit>)
    requires Points(all)
  {
    exists n: nat :: LongestPrefix(all, n) && result == Join(all[..n])
  }

  // ----- the source's loops -----

  /** What has been appended so far: all of `done`, or as much of it as fits. */
  ghost predicate Progress(done: seq<seq<Unit>>, result: seq<Unit>, length: nat)
    requires Points(done)
  {
    if length <= MAX_RENDERED_BYTES then length == TotalBytes(done) && result == Join(done)
    else exists n: nat :: n < |done| && LongestPrefix(done, n) && result == Join(done[..n])
  }

  lemma TotalOneMore(done: seq<seq<Unit>>, p: seq<Unit>)
    requires Points(done) && 1 <= |p| <= 2
    ensures Points(done + [p]) && TotalBytes(done + [p]) == TotalBytes(done) + ByteLength(p)
            && Join(done + [p]) == Join(done) + p
  {
    assert (done + [p])[..|done|] == done;
  }

  lemma StaysLongest(done: seq<seq<Unit>>, more: seq<seq<Unit>>, result: seq<Unit>, length: nat)
    requires Points(done) && Points(more) && length > MAX_RENDERED_BYTES && Progress(done, result, length)
    ensures Points(done + more) && Progress(done + more, result, length)
  {
    var n: nat :| n < |done| && LongestPrefix(done, n) && result == Join(done[..n]);
    var all := done + more;
    assert all[..n] == done[..n] && all[..n + 1] == done[..n + 1];
    assert LongestPrefix(all, n);
  }

  /** append: one string, stopping at the first point that does not fit. */
  method Append(text: seq<Unit>, before: seq<Unit>, used: nat, ghost done: seq<seq<Unit>>)
    returns (result: seq<Unit>, length: nat)
    requires used <= MAX_RENDERED_BYTES && Points(done) && Progress(done, before, used)
    ensures Points(done + Shown(text)) && Progress(done + Shown(text), result, length)
  {
    hide LongestPrefix, ByteLength, Safe, Width;
    result, length := before, used;
    var rest := text;
    ghost var all := done + Shown(text);
    ghost var now := done;
    while rest != []
      invariant length <= MAX_RENDERED_BYTES && Points(now) && Progress(now, result, length)
      invariant all == now + Shown(rest)
      decreases |rest|
    {
      var w := Width(rest);
      var safe := Safe(rest[..w]);
      ghost var after := now + [safe];
      TotalOneMore(now, safe);
      assert all == after + Shown(rest[w..]);
      length := length + ByteLength(safe);
      if length > MAX_RENDERED_BYTES {
        Overflowed(now, safe, result, length);
        StaysLongest(after, Shown(rest[w..]), result, length);
        return;
      }
      result := result + safe;
      rest := rest[w..];
      now := after;
    }
    assert all == now;
  }

  lemma Overflowed(now: seq<seq<Unit>>, p: seq<Unit>, result: seq<Unit>, length: nat)
    requires Points(now) && 1 <= |p| <= 2 && TotalBytes(now) <= MAX_RENDERED_BYTES && result == Join(now)
    requires length == TotalBytes(now) + ByteLength(p) > MAX_RENDERED_BYTES
    ensures Points(now + [p]) && Progress(now + [p], result, length)
  {
    TotalOneMore(now, p);
    var after := now + [p];
    assert after[..|now|] == now && after[..|now| + 1] == after;
    assert LongestPrefix(after, |now|);
  }

  /** One turn of the render loop: the text before a replacement, then its value. */
  method RenderOne(raw: seq<Unit>, m: Span, cursor: nat, before: seq<Unit>, used: nat, ghost done: seq<seq<Unit>>)
    returns (result: seq<Unit>, length: nat)
    requires cursor <= m.start <= |raw| && used <= MAX_RENDERED_BYTES && Points(done) && Progress(done, before, used)
    ensures var shown := done + Shown(raw[cursor..m.start]) + Shown(m.value);
            Points(shown) && Progress(shown, result, length)
  {
    hide Shown, Progress;
    ghost var slice := Shown(raw[cursor..m.start]);
    result, length := Append(raw[cursor..m.start], before, used, done);
    if length <= MAX_RENDERED_BYTES {
      result, length := Append(m.value, result, length, done + slice);
    } else {
      StaysLongest(done + slice, Shown(m.value), result, length);
    }
  }

  /** The render loop: slices and replacements in turn, while anything still fits.
      The result is the longest whole-point prefix of the full rendering that
      takes at most 500 bytes. */
  method Render(raw: seq<Unit>, merged: seq<Span>) returns (result: seq<Unit>)
    requires Apart(raw, merged)
    ensures IsLongest(Full(raw, merged, 0), result)
  {
    hide LongestPrefix, Shown, Progress, Full, Join;
    var length: nat, cursor: nat := 0, 0;
    result := [];
    ghost var all := Full(raw, merged, 0);
    ghost var done: seq<seq<Unit>> := [];
    assert merged[0..] == merged && all == done + all;
    NothingRendered();
    for i := 0 to |merged|
      invariant cursor <= |raw| && (i < |merged| ==> cursor <= merged[i].start)
      invariant Apart(raw, merged[i..]) && Points(done) && Progress(done, result, length)
      invariant all == done + Full(raw, merged[i..], cursor)
    {
      if length > MAX_RENDERED_BYTES { break; }
      var m := merged[i];
      FullStep(raw, merged, i, cursor);
      result, length := RenderOne(raw, m, cursor, result, length, done);
      ghost var slice, value, later := Shown(raw[cursor..m.start]), Shown(m.value), Full(raw, merged[i + 1..], m.end);
      Regroup(done, slice, value, later);
      done := done + slice + value;
      cursor := m.end;
    }
    if length <= MAX_RENDERED_BYTES {
      LastSlice(raw, merged, cursor);
      result, length := Append(raw[cursor..], result, length, done);
      var n := FinalPrefix(all, result, length);
    } else {
      var n := PrefixOfAll(done, all, result, length);
    }
  }

  lemma NothingRendered()
    ensures Points([]) && Progress([], [], 0)
  {}

  lemma Regroup(a: seq<seq<Unit>>, b: seq<seq<Unit>>, c: seq<seq<Unit>>, d: seq<seq<Unit>>)
    ensures a + (b + c + d) == (a + b + c) + d
  {}

  lemma LastSlice(raw: seq<Unit>, merged: seq<Span>, cursor: nat)
    requires Apart(raw, []) && cursor <= |raw|
    ensures Full(raw, merged[|merged|..], cursor) == Shown(raw[cursor..])
  {}

  lemma FullStep(raw: seq<Unit>, merged: seq<Span>, i: nat, cursor: nat)
    requires i < |merged| && Apart(raw, merged) && Apart(raw, merged[i..]) && cursor <= merged[i].start
    ensures Apart(raw, merged[i + 1..]) && (i + 1 < |merged| ==> merged[i].end <= merged[i + 1].start)
    ensures Full(raw, merged[i..], cursor)
         == Shown(raw[cursor..merged[i].start]) + Shown(merged[i].value) + Full(raw, merged[i + 1..], merged[i].end)
  {
    assert merged[i..][1..] == merged[i + 1..];
  }

  lemma PrefixOfAll(done: seq<seq<Unit>>, all: seq<seq<Unit>>, result: seq<Unit>, length: nat) returns (n: nat)
    requires Points(done) && Points(all) && done <= all && length > MAX_RENDERED_BYTES && Progress(done, result, length)
    ensures LongestPrefix(all, n) && result == Join(all[..n])
  {
    n :| n < |done| && LongestPrefix(done, n) && result == Join(done[..n]);
    assert all[..n] == done[..n] && all[..n + 1] == done[..n + 1];
  }

  lemma FinalPrefix(all: seq<seq<Unit>>, result: seq<Unit>, length: nat) returns (n: nat)
    requires Points(all) && Progress(all, result, length)
    ensures LongestPrefix(all, n) && result == Join(all[..n])
  {
    if length <= MAX_RENDERED_BYTES {
      n := |all|;
      assert all[..n] == all;
    } else {
      n := PrefixOfAll(all, all, result, length);
    }
  }

  /** No two prefixes are both longest. */
  lemma {:induction false} LongestIsUnique(all: seq<seq<Unit>>, n: nat, m: nat)
    requires Points(all) && LongestPrefix(all, n) && LongestPrefix(all, m)
    ensures n == m
  {
    if n < m { TotalGrows(all, n + 1, m); }
    if m < n { TotalGrows(all, m + 1, n); }
  }

  lemma {:induction false} TotalGrows(all: seq<seq<Unit>>, n: nat, m: nat)
    requires Points(all) && n <= m <= |all|
    ensures TotalBytes(all[..n]) <= TotalBytes(all[..m])
    decreases m
  {
    if n < m {
      TotalGrows(all, n, m - 1);
      assert all[..m][..m - 1] == all[..m - 1];
    }
  }

  // ----- where every point comes from -----

  /** A point copied from the text, or made by a replacement. */
  datatype Origin = Copied(at: nat, width: nat) | Made(point: seq<Unit>)

  function Copies(raw: seq<Unit>, lo: nat, hi: nat): (os: seq<Origin>)
    requires lo <= hi <= |raw|
    ensures forall i :: 0 <= i < |os| ==>
            os[i].Copied? && lo <= os[i].at && 1 <= os[i].width <= 2 && os[i].at + os[i].width <= hi
    decreases hi - lo
  {
    if lo == hi then []
    else var w := Width(raw[lo..hi]); [Copied(lo, w)] + Copies(raw, lo + w, hi)
  }

  function Makes(value: seq<Unit>): (os: seq<Origin>)
    ensures forall i :: 0 <= i < |os| ==> os[i].Made? && 1 <= |os[i].point| <= 2
  {
    if value == [] then [] else [Made(value[..Width(value)])] + Makes(value[Width(value)..])
  }

  function Origins(raw: seq<Unit>, merged: seq<Span>, cursor: nat): seq<Origin>
    requires Apart(raw, merged) && cursor <= |raw| && (merged != [] ==> cursor <= merged[0].start)
    decreases |merged|
  {
    if merged == [] then Copies(raw, cursor, |raw|)
    else Copies(raw, cursor, merged[0].start) + Makes(merged[0].value) + Origins(raw, merged[1..], merged[0].end)
  }

  predicate OriginOk(raw: seq<Unit>, o: Origin) {
    if o.Copied? then 1 <= o.width <= 2 && o.at + o.width <= |raw| else 1 <= |o.point| <= 2
  }

  function Show(raw: seq<Unit>, o: Origin): seq<Unit>
    requires OriginOk(raw, o)
  {
    Safe(if o.Copied? then raw[o.at..o.at + o.width] else o.point)
  }

  ghost predicate Explains(raw: seq<Unit>, os: seq<Origin>, ps: seq<seq<Unit>>) {
    |os| == |ps| && forall i :: 0 <= i < |os| ==> OriginOk(raw, os[i]) && Show(raw, os[i]) == ps[i]
  }

  lemma ExplainsOne(raw: seq<Unit>, o: Origin, os: seq<Origin>, p: seq<Unit>, ps: seq<seq<Unit>>)
    requires OriginOk(raw, o) && Show(raw, o) == p && Explains(raw, os, ps)
    ensures Explains(raw, [o] + os, [p] + ps)
  {
    hide Show, OriginOk;
  }

  lemma {:induction false} CopiesExplain(raw: seq<Unit>, lo: nat, hi: nat)
    requires lo <= hi <= |raw|
    ensures Explains(raw, Copies(raw, lo, hi), Shown(raw[lo..hi]))
    decreases hi - lo
  {
    if lo < hi {
      CopiesStep(raw, lo, hi);
      hide Explains, Safe, Width, Copies, Shown;
      var w := Width(raw[lo..hi]);
      CopiesExplain(raw, lo + w, hi);
      ExplainsOne(raw, Copied(lo, w), Copies(raw, lo + w, hi), Safe(raw[lo..lo + w]), Shown(raw[lo + w..hi]));
    } else {
      assert raw[lo..hi] == [];
    }
  }

  /** The first point of a slice, and the rest of it. */
  lemma {:induction false} CopiesStep(raw: seq<Unit>, lo: nat, hi: nat)
    requires lo < hi <= |raw|
    ensures var w := Width(raw[lo..hi]);
            && Copies(raw, lo, hi) == [Copied(lo, w)] + Copies(raw, lo + w, hi)
            && Shown(raw[lo..hi]) == [Safe(raw[lo..lo + w])] + Shown(raw[lo + w..hi])
  {
    hide Safe, Width;
    var s := raw[lo..hi];
    var w := Width(s);
    assert s[..w] == raw[lo..lo + w] && s[w..] == raw[lo + w..hi];
  }

  lemma {:induction false} MakesExplain(raw: seq<Unit>, value: seq<Unit>)
    ensures Explains(raw, Makes(value), Shown(value))
  {
    if value != [] { MakesExplain(raw, value[Width(value)..]); }
  }

  lemma ExplainsJoin(raw: seq<Unit>, os: seq<Origin>, ps: seq<seq<Unit>>, os': seq<Origin>, ps': seq<seq<Unit>>)
    requires Explains(raw, os, ps) && Explains(raw, os', ps')
    ensures Explains(raw, os + os', ps + ps')
  {
    hide Show;
  }

  /** The full rendering is what its origins show. */
  lemma {:induction false} OriginsExplain(raw: seq<Unit>, merged: seq<Span>, cursor: nat)
    requires Apart(raw, merged) && cursor <= |raw| && (merged != [] ==> cursor <= merged[0].start)
    ensures Explains(raw, Origins(raw, merged, cursor), Full(raw, merged, cursor))
    decreases |merged|
  {
    hide Explains, Shown, Copies, Makes;
    if merged == [] {
      CopiesExplain(raw, cursor, |raw|);
      assert raw[cursor..|raw|] == raw[cursor..];
    } else {
      var m := merged[0];
      CopiesExplain(raw, cursor, m.start);
      MakesExplain(raw, m.value);
      OriginsExplain(raw, merged[1..], m.end);
      ExplainsJoin(raw, Copies(raw, cursor, m.start), Shown(raw[cursor..m.start]), Makes(m.value), Shown(m.value));
      ExplainsJoin(raw, Copies(raw, cursor, m.start) + Makes(m.value), Shown(raw[cursor..m.start]) + Shown(m.value),
                   Origins(raw, merged[1..], m.end), Full(raw, merged[1..], m.end));
    }
  }

  /** Nothing copied lies in a span. */
  predicate OutsideSpans(merged: seq<Span>, cursor: nat, o: Origin) {
    o.Copied? ==> o.at >= cursor && forall p :: o.at <= p < o.at + o.width ==> !Covered(merged, p)
  }

  lemma {:induction false} CopiesOutside(raw: seq<Unit>, merged: seq<Span>, cursor: nat)
    requires Apart(raw, merged) && cursor <= |raw| && (merged != [] ==> cursor <= merged[0].start)
    ensures forall i :: 0 <= i < |Origins(raw, merged, cursor)| ==>
            OutsideSpans(merged, cursor, Origins(raw, merged, cursor)[i])
    decreases |merged|
  {
    if merged != [] {
      var m, rest := merged[0], merged[1..];
      CopiesOutside(raw, rest, m.end);
      var first, made, later := Copies(raw, cursor, m.start), Makes(m.value), Origins(raw, rest, m.end);
      assert Origins(raw, merged, cursor) == first + made + later;
      hide Copies, Makes, Origins;
      forall o | o in first ensures OutsideSpans(merged, cursor, o) { BeforeAll(raw, merged, o); }
      forall o | o in later ensures OutsideSpans(merged, cursor, o) { BeyondFirst(raw, merged, cursor, o); }
    }
  }

  lemma BeforeAll(raw: seq<Unit>, merged: seq<Span>, o: Origin)
    requires Apart(raw, merged) && merged != [] && o.Copied? && o.at + o.width <= merged[0].start
    ensures forall p :: o.at <= p < o.at + o.width ==> !Covered(merged, p)
  {}

  lemma CoveredHead(merged: seq<Span>, p: int)
    requires merged != []
    ensures Covered(merged, p) ==> merged[0].start <= p < merged[0].end || Covered(merged[1..], p)
  {
    if Covered(merged, p) && !(merged[0].start <= p < merged[0].end) {
      var i :| 0 <= i < |merged| && merged[i].start <= p < merged[i].end;
      assert merged[1..][i - 1] == merged[i];
    }
  }

  lemma BeyondFirst(raw: seq<Unit>, merged: seq<Span>, cursor: nat, o: Origin)
    requires Apart(raw, merged) && merged != [] && cursor <= merged[0].start
             && OutsideSpans(merged[1..], merged[0].end, o)
    ensures OutsideSpans(merged, cursor, o)
  {
    if o.Copied? {
      forall p | o.at <= p < o.at + o.width ensures !Covered(merged, p) { CoveredHead(merged, p); }
    }
  }

  /** For every text and every set of non-empty spans: the merged spans are in
      order, apart and cover the same positions; the rendering consists of
      replacement texts and of points copied from positions no span covers. */
  lemma NoCoveredCharacterIsCopied(raw: seq<Unit>, spans: seq<Span>, i: nat, p: int)
    requires SpansOk(raw, spans)
    ensures var m := MergeAll(Sort(spans));
            && Apart(raw, m) && (Covered(m, p) <==> Covered(spans, p))
            && Explains(raw, Origins(raw, m, 0), Full(raw, m, 0))
            && var os := Origins(raw, m, 0);
               (i < |os| && os[i].Copied? && os[i].at <= p < os[i].at + os[i].width ==> !Covered(spans, p))
  {
    hide MergeAll, Sort, Covered, Sorted, Origins, Full, Explains, SpansOk;
    SortSorts(spans);
    SortCovers(raw, spans, p);
    MergeAllKeeps(raw, Sort(spans), p);
    var m := MergeAll(Sort(spans));
    OriginsExplain(raw, m, 0);
    CopiesOutside(raw, m, 0);
    if i < |Origins(raw, m, 0)| { assert OutsideSpans(m, 0, Origins(raw, m, 0)[i]); }
  }

  // ----- what the origins are -----

  /** The texts a replacement can show: the value of a span, or the mark that
      stands for overlapping ones. */
  predicate Replacement(spans: seq<Span>, value: seq<Unit>) {
    value == REDACTED || exists k :: 0 <= k < |spans| && spans[k].value == value
  }

  predicate Holds(o: Origin, p: int) { o.Copied? && o.at <= p < o.at + o.width }

  /** Made points come from replacement texts, and copied ones from positions
      that no span covers. */
  ghost predicate FromOutside(raw: seq<Unit>, spans: seq<Span>, os: seq<Origin>) {
    forall i :: 0 <= i < |os| ==>
      && OriginOk(raw, os[i])
      && (os[i].Made? ==> exists value :: Replacement(spans, value) && os[i] in Makes(value))
      && (forall p :: Holds(os[i], p) ==> !Covered(spans, p))
  }

  /** Nothing is copied twice or out of order. */
  predicate Ascending(os: seq<Origin>) {
    forall i, j :: 0 <= i < j < |os| && os[i].Copied? && os[j].Copied? ==> os[i].at + os[i].width <= os[j].at
  }

  /** Nothing that no span covers is left out. */
  ghost predicate Complete(raw: seq<Unit>, spans: seq<Span>, os: seq<Origin>) {
    forall p :: 0 <= p < |raw| && !Covered(spans, p) ==> exists i :: 0 <= i < |os| && Holds(os[i], p)
  }

  lemma {:induction false} CopiesAscend(raw: seq<Unit>, lo: nat, hi: nat)
    requires lo <= hi <= |raw|
    ensures Ascending(Copies(raw, lo, hi))
    decreases hi - lo
  {
    if lo < hi {
      hide Width;
      CopiesAscend(raw, lo + Width(raw[lo..hi]), hi);
    }
  }

  lemma {:induction false} CopiesHold(raw: seq<Unit>, lo: nat, hi: nat, p: nat)
    requires lo <= p < hi <= |raw|
    ensures exists o :: o in Copies(raw, lo, hi) && Holds(o, p)
    decreases hi - lo
  {
    hide Width;
    var w := Width(raw[lo..hi]);
    var rest := Copies(raw, lo + w, hi);
    assert Copies(raw, lo, hi) == [Copied(lo, w)] + rest;
    if p < lo + w {
      assert Copied(lo, w) in Copies(raw, lo, hi) && Holds(Copied(lo, w), p);
    } else {
      CopiesHold(raw, lo + w, hi, p);
      var o :| o in rest && Holds(o, p);
      assert o in Copies(raw, lo, hi);
    }
  }

  /** Three parts in ascending order, the middle one with nothing copied. */
  lemma AscendingJoin(a: seq<Origin>, b: seq<Origin>, c: seq<Origin>, hi: nat)
    requires Ascending(a) && Ascending(c) && (forall o :: o in b ==> o.Made?)
    requires forall o :: o in a && o.Copied? ==> o.at + o.width <= hi
    requires forall o :: o in c && o.Copied? ==> hi <= o.at
    ensures Ascending(a + b + c)
  {
    var os := a + b + c;
    assert forall i :: 0 <= i < |a| ==> os[i] == a[i];
    assert forall i :: 0 <= i < |b| ==> os[|a| + i] == b[i] && b[i].Made?;
    assert forall i :: |a| <= i < |a| + |b| ==> os[i] == b[i - |a|];
    assert forall i :: |a| + |b| <= i < |os| ==> os[i] == c[i - |a| - |b|];
  }

  lemma {:induction false} OriginsAscend(raw: seq<Unit>, merged: seq<Span>, cursor: nat)
    requires Apart(raw, merged) && cursor <= |raw| && (merged != [] ==> cursor <= merged[0].start)
    ensures Ascending(Origins(raw, merged, cursor))
    decreases |merged|
  {
    if merged == [] {
      CopiesAscend(raw, cursor, |raw|);
    } else {
      var m, rest := merged[0], merged[1..];
      CopiesAscend(raw, cursor, m.start);
      OriginsAscend(raw, rest, m.end);
      CopiesOutside(raw, rest, m.end);
      var first, made, later := Copies(raw, cursor, m.start), Makes(m.value), Origins(raw, rest, m.end);
      assert Origins(raw, merged, cursor) == first + made + later;
      hide Copies, Makes, Origins, Ascending, Covered;
      AscendingJoin(first, made, later, m.start);
    }
  }

  /** A position outside the spans is before the first, or after it and outside the rest. */
  lemma OutsideFirst(raw: seq<Unit>, merged: seq<Span>, p: int)
    requires Apart(raw, merged) && merged != [] && !Covered(merged, p)
    ensures (p < merged[0].start || merged[0].end <= p) && !Covered(merged[1..], p)
  {
    assert forall i :: 0 <= i < |merged[1..]| ==> merged[1..][i] == merged[i + 1];
  }

  lemma {:induction false} OriginsHold(raw: seq<Unit>, merged: seq<Span>, cursor: nat, p: nat)
    requires Apart(raw, merged) && cursor <= p < |raw| && (merged != [] ==> cursor <= merged[0].start)
    requires !Covered(merged, p)
    ensures exists o :: o in Origins(raw, merged, cursor) && Holds(o, p)
    decreases |merged|
  {
    if merged == [] {
      CopiesHold(raw, cursor, |raw|, p);
    } else {
      var m, rest := merged[0], merged[1..];
      OutsideFirst(raw, merged, p);
      var first, made, later := Copies(raw, cursor, m.start), Makes(m.value), Origins(raw, rest, m.end);
      assert Origins(raw, merged, cursor) == first + made + later;
      hide Copies, Makes, Origins, Covered, Holds;
      if p < m.start {
        CopiesHold(raw, cursor, m.start, p);
        var o :| o in first && Holds(o, p);
        assert o in first + made + later;
      } else {
        OriginsHold(raw, rest, m.end, p);
        var o :| o in later && Holds(o, p);
        assert o in first + made + later;
      }
    }
  }

  /** Every made point belongs to the text of one merged span. */
  lemma {:induction false} MadeFromSpans(raw: seq<Unit>, merged: seq<Span>, cursor: nat, o: Origin)
    requires Apart(raw, merged) && cursor <= |raw| && (merged != [] ==> cursor <= merged[0].start)
    requires o in Origins(raw, merged, cursor) && o.Made?
    ensures exists j :: 0 <= j < |merged| && o in Makes(merged[j].value)
    decreases |merged|
  {
    if merged == [] {
      assert false;
    } else {
      var m, rest := merged[0], merged[1..];
      var first, made, later := Copies(raw, cursor, m.start), Makes(m.value), Origins(raw, rest, m.end);
      assert Origins(raw, merged, cursor) == first + made + later;
      hide Copies, Makes, Origins;
      if o in made {
        assert o in Makes(merged[0].value);
      } else {
        assert o in later;
        MadeFromSpans(raw, rest, m.end, o);
        var j :| 0 <= j < |rest| && o in Makes(rest[j].value);
        assert rest[j] == merged[j + 1];
      }
    }
  }

  /** Merging shows only values of the spans and the mark. */
  lemma {:induction false} MergedValues(spans: seq<Span>)
    ensures forall j :: 0 <= j < |MergeAll(spans)| ==> Replacement(spans, MergeAll(spans)[j].value)
  {
    if spans != [] {
      var init, last := spans[..|spans| - 1], spans[|spans| - 1];
      MergedValues(init);
      var before, after := MergeAll(init), MergeAll(spans);
      forall j | 0 <= j < |after| ensures Replacement(spans, after[j].value) {
        if j < |before| && after[j] == before[j] {
          ReplacementAmong(init, spans, before[j].value);
        } else {
          assert after[j].value == REDACTED || after[j] == last;
        }
      }
    }
  }

  lemma ReplacementAmong(a: seq<Span>, b: seq<Span>, value: seq<Unit>)
    requires Replacement(a, value) && forall x :: x in a ==> x in b
    ensures Replacement(b, value)
  {
    if value != REDACTED {
      var k :| 0 <= k < |a| && a[k].value == value;
      assert a[k] in b;
    }
  }

  lemma SortedValues(spans: seq<Span>, value: seq<Unit>)
    requires Replacement(Sort(spans), value)
    ensures Replacement(spans, value)
  {
    SortSorts(spans);
    hide Sort, Sorted;
    forall x | x in Sort(spans) ensures x in spans {
      assert multiset(Sort(spans))[x] > 0;
    }
    ReplacementAmong(Sort(spans), spans, value);
  }

  /** The origins of the full rendering are made of replacement texts and of
      exactly the text that no span covers, in order. */
  lemma OriginsAreOutside(raw: seq<Unit>, spans: seq<Span>)
    requires SpansOk(raw, spans)
    ensures var m := MergeAll(Sort(spans));
            && Apart(raw, m)
            && var os := Origins(raw, m, 0);
               FromOutside(raw, spans, os) && Ascending(os) && Complete(raw, spans, os)
  {
    hide MergeAll, Sort, Covered, Origins, Full, SpansOk, OriginOk, Makes, Ascending, Apart, Replacement, Show;
    NoCoveredCharacterIsCopied(raw, spans, 0, 0);
    var m := MergeAll(Sort(spans));
    var os := Origins(raw, m, 0);
    OriginsExplain(raw, m, 0);
    OriginsAscend(raw, m, 0);
    forall i | 0 <= i < |os| && os[i].Made?
      ensures exists value :: Replacement(spans, value) && os[i] in Makes(value)
    {
      MadeFromSpans(raw, m, 0, os[i]);
      var j :| 0 <= j < |m| && os[i] in Makes(m[j].value);
      MergedValues(Sort(spans));
      SortedValues(spans, m[j].value);
    }
    forall i, p | 0 <= i < |os| && Holds(os[i], p) ensures !Covered(spans, p) {
      NoCoveredCharacterIsCopied(raw, spans, i, p);
    }
    forall p | 0 <= p < |raw| && !Covered(spans, p) ensures exists i :: 0 <= i < |os| && Holds(os[i], p) {
      NoCoveredCharacterIsCopied(raw, spans, 0, p);
      OriginsHold(raw, m, 0, p);
    }
  }

  // ----- control characters -----

  predicate Clean(text: seq<Unit>) { forall i :: 0 <= i < |text| ==> !Control(text[i]) }

  predicate AllClean(ps: seq<seq<Unit>>) { forall i :: 0 <= i < |ps| ==> Clean(ps[i]) }

  lemma {:induction false} ShownIsClean(s: seq<Unit>)
    ensures AllClean(Shown(s))
  {
    if s != [] {
      ShownIsClean(s[Width(s)..]);
      assert Clean(Safe(s[..Width(s)]));
    }
  }

  lemma {:induction false} FullIsClean(raw: seq<Unit>, merged: seq<Span>, cursor: nat)
    requires Apart(raw, merged) && cursor <= |raw| && (merged != [] ==> cursor <= merged[0].start)
    ensures AllClean(Full(raw, merged, cursor))
    decreases |merged|
  {
    hide Shown, Clean;
    if merged == [] {
      ShownIsClean(raw[cursor..]);
    } else {
      ShownIsClean(raw[cursor..merged[0].start]);
      ShownIsClean(merged[0].value);
      FullIsClean(raw, merged[1..], merged[0].end);
    }
  }

  lemma {:induction false} JoinIsClean(ps: seq<seq<Unit>>)
    requires AllClean(ps)
    ensures Clean(Join(ps))
  {
    if ps != [] { JoinIsClean(ps[..|ps| - 1]); }
  }

  /** Whatever fits of a rendering shows no control character. */
  lemma NoControlIsShown(raw: seq<Unit>, merged: seq<Span>, result: seq<Unit>)
    requires Apart(raw, merged) && IsLongest(Full(raw, merged, 0), result)
    ensures forall i :: 0 <= i < |result| ==> !(result[i] < 32 || 127 <= result[i] < 160)
  {
    hide Join, Full;
    FullIsClean(raw, merged, 0);
    var all := Full(raw, merged, 0);
    var n: nat :| LongestPrefix(all, n) && result == Join(all[..n]);
    JoinIsClean(all[..n]);
  }

  // ----- render as a whole -----

  function ShowAll(raw: seq<Unit>, os: seq<Origin>): seq<seq<Unit>>
    requires forall i :: 0 <= i < |os| ==> OriginOk(raw, os[i])
  {
    seq(|os|, i requires 0 <= i < |os| => Show(raw, os[i]))
  }

  /** The result shows the first of these origins, one after the other. */
  ghost predicate ShowsPrefix(raw: seq<Unit>, os: seq<Origin>, result: seq<Unit>)
    requires forall i :: 0 <= i < |os| ==> OriginOk(raw, os[i])
  {
    exists n: nat :: n <= |os| && result == Join(ShowAll(raw, os[..n]))
  }

  lemma PrefixShows(raw: seq<Unit>, merged: seq<Span>, n: nat)
    requires Apart(raw, merged) && n <= |Full(raw, merged, 0)|
    ensures var os := Origins(raw, merged, 0);
            && (forall i :: 0 <= i < |os| ==> OriginOk(raw, os[i]))
            && ShowsPrefix(raw, os, Join(Full(raw, merged, 0)[..n]))
  {
    hide Origins, Full, Show, OriginOk, Join;
    OriginsExplain(raw, merged, 0);
    var os := Origins(raw, merged, 0);
    assert ShowAll(raw, os[..n]) == Full(raw, merged, 0)[..n];
  }

  /** render, up to the final trim: the spans are sorted and merged, and the
      result is the longest prefix that fits of the full rendering. It shows the
      first origins of that rendering, which are points of replacement texts and
      points copied in order from exactly the positions that no span covers. */
  method RenderSpans(raw: seq<Unit>, spans: seq<Span>) returns (result: seq<Unit>)
    requires SpansOk(raw, spans)
    ensures Apart(raw, MergeAll(Sort(spans))) && IsLongest(Full(raw, MergeAll(Sort(spans)), 0), result)
    ensures var os := Origins(raw, MergeAll(Sort(spans)), 0);
            && FromOutside(raw, spans, os) && Ascending(os) && Complete(raw, spans, os)
            && ShowsPrefix(raw, os, result)
    ensures forall i :: 0 <= i < |result| ==> !(result[i] < 32 || 127 <= result[i] < 160)
    ensures MergedRightly(Sort(spans), MergeAll(Sort(spans)))
  {
    SortSorts(spans);
    SortCovers(raw, spans, 0);
    MergesRightly(raw, Sort(spans));
    hide MergeAll, Sort, Full, SpansOk, Join, Origins, FromOutside, Ascending, Complete, ShowsPrefix, MergedRightly;
    hide LongestPrefix, Sorted, Covered;
    var merged := Merge(Sort(spans));
    OriginsAreOutside(raw, spans);
    result := Render(raw, merged);
    ghost var all := Full(raw, merged, 0);
    ghost var n: nat :| LongestPrefix(all, n) && result == Join(all[..n]);
    PrefixShows(raw, merged, n);
    NoControlIsShown(raw, merged, result);
  }
}

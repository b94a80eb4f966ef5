/** Marking literal values in a rendered message, longest first, without overlaps. */
module CodeEntities {
  import opened Prelude
  import Utf16

  /** Characters start..end of the text. */
  datatype Span = Span(start: nat, end: nat)

  datatype Entity = Entity(offset: int, length: int)

  // -- finding ------------------------------------------------------------

  predicate OccursAt(text: string, value: string, i: int) {
    0 <= i && i + |value| <= |text| && text[i..i + |value|] == value
  }

  /** `text.find(value, start)`. */
  function Find(text: string, value: string, start: nat): (r: Option<nat>)
    ensures r.Some? ==> start <= r.value && OccursAt(text, value, r.value)
    decreases |text| - start
  {
    if start + |value| > |text| then None
    else if text[start..start + |value|] == value then Some(start)
    else Find(text, value, start + 1)
  }

  /** It skips no occurrence. */
  lemma {:induction false} FindIsFirst(text: string, value: string, start: nat, j: nat)
    requires start <= j && OccursAt(text, value, j)
    ensures Find(text, value, start).Some? && Find(text, value, start).value <= j
    decreases |text| - start
  {
    if text[start..start + |value|] != value {
      FindIsFirst(text, value, start + 1, j);
    }
  }

  /** The occurrences a scan from left to right meets, each search starting behind the last hit. */
  function Scan(text: string, value: string, start: nat): seq<nat>
    requires value != ""
    decreases |text| - start
  {
    var hit := Find(text, value, start);
    if hit.None? || start > |text| then [] else [hit.value] + Scan(text, value, hit.value + |value|)
  }

  /** Only occurrences that overlap an earlier hit of the same value are stepped over. */
  lemma {:induction false} ScanMeetsEveryOccurrence(text: string, value: string, start: nat, j: nat)
    requires value != "" && start <= j && OccursAt(text, value, j)
    ensures exists i :: i in Scan(text, value, start) && i <= j < i + |value|
    decreases |text| - start
  {
    FindIsFirst(text, value, start, j);
    var hit := Find(text, value, start).value;
    assert Scan(text, value, start) == [hit] + Scan(text, value, hit + |value|);
    assert hit in Scan(text, value, start) by { assert Scan(text, value, start)[0] == hit; }
    if hit + |value| <= j {
      ScanMeetsEveryOccurrence(text, value, hit + |value|, j);
      var i :| i in Scan(text, value, hit + |value|) && i <= j < i + |value|;
      assert i in Scan(text, value, start);
    }
  }

  lemma {:induction false} ScanFinds(text: string, value: string, start: nat, i: nat)
    requires value != "" && i in Scan(text, value, start)
    ensures start <= i && OccursAt(text, value, i)
    decreases |text| - start
  {
    var hit := Find(text, value, start).value;
    if i != hit {
      ScanFinds(text, value, hit + |value|, i);
    }
  }

  // -- marking ------------------------------------------------------------

  predicate EndsWith(text: string, suffix: string) {
    |suffix| <= |text| && text[|text| - |suffix|..] == suffix
  }

  /** A line value counts only behind ": " and up to the end of its line. */
  predicate Qualifies(text: string, value: string, lineValues: set<string>, i: nat)
    requires i + |value| <= |text|
  {
    value in lineValues ==>
      EndsWith(text[..i], ": ") && (i + |value| == |text| || text[i + |value|] == '\n')
  }

  /** Which hits count: any of a plain value; of a line value those with a colon and a space
      before and the end of the line or of the text behind. */
  lemma QualifiesIff(before: string, value: string, after: string, lineValues: set<string>)
    ensures Qualifies(before + value + after, value, lineValues, |before|) <==>
              value in lineValues ==>
                (exists head :: before == head + ": ") && (after == "" || after[0] == '\n')
  {
    var text := before + value + after;
    assert text[..|before|] == before;
    if EndsWith(before, ": ") { assert before == before[..|before| - 2] + ": "; }
    if head :| before == head + ": " { assert before[|before| - 2..] == ": "; }
    assert after != "" ==> text[|before| + |value|] == after[0];
  }

  predicate Overlap(a: Span, b: Span) {
    a.start < b.end && a.end > b.start
  }

  predicate Taken(spans: seq<Span>, s: Span) {
    exists k :: 0 <= k < |spans| && Overlap(s, spans[k])
  }

  /** One hit of the scan: skipped, or appended. */
  function MarkHit(text: string, value: string, lineValues: set<string>, spans: seq<Span>, i: nat): seq<Span> {
    var s := Span(i, i + |value|);
    if !OccursAt(text, value, i) || !Qualifies(text, value, lineValues, i) || Taken(spans, s)
    then spans
    else spans + [s]
  }

  function MarkHits(text: string, value: string, lineValues: set<string>, spans: seq<Span>, hits: seq<nat>): seq<Span>
    decreases |hits|
  {
    if hits == [] then spans
    else MarkHits(text, value, lineValues, MarkHit(text, value, lineValues, spans, hits[0]), hits[1..])
  }

  function MarkValues(text: string, lineValues: set<string>, order: seq<string>): seq<Span> {
    if order == [] then []
    else
      var last := |order| - 1;
      var before := MarkValues(text, lineValues, order[..last]);
      if order[last] == "" then before
      else MarkHits(text, order[last], lineValues, before, Scan(text, order[last], 0))
  }

  /** `sorted(set, key=len, reverse=True)`: longest first, ties in any order. */
  ghost predicate LongestFirst(order: seq<string>, all: set<string>) {
    && (forall v :: v in order <==> v in all)
    && (forall i, j :: 0 <= i < j < |order| ==> |order[i]| >= |order[j]|)
  }

  function Elements(order: seq<string>): set<string> {
    set v | v in order
  }

  // -- what the marks mean ------------------------------------------------

  ghost predicate Hit(text: string, v: string, lineValues: set<string>, s: Span) {
    && v != "" && s.end == s.start + |v| && OccursAt(text, v, s.start)
    && s.start in Scan(text, v, 0) && Qualifies(text, v, lineValues, s.start)
  }

  ghost predicate HitOfAny(text: string, values: set<string>, lineValues: set<string>, s: Span) {
    exists v :: v in values && Hit(text, v, lineValues, s)
  }

  ghost predicate Sound(text: string, values: set<string>, lineValues: set<string>, spans: seq<Span>) {
    forall k :: 0 <= k < |spans| ==> HitOfAny(text, values, lineValues, spans[k])
  }

  ghost predicate Disjoint(spans: seq<Span>) {
    forall i, j :: 0 <= i < |spans| && 0 <= j < |spans| && i != j ==> !Overlap(spans[i], spans[j])
  }

  ghost predicate Beaten(spans: seq<Span>, s: Span) {
    exists k :: 0 <= k < |spans| && Overlap(spans[k], s) && spans[k].end - spans[k].start >= s.end - s.start
  }

  /** Every qualifying hit is marked, or overlaps a mark at least as long. */
  ghost predicate Complete(text: string, values: set<string>, lineValues: set<string>, spans: seq<Span>) {
    forall v, s :: v in values && Hit(text, v, lineValues, s) ==> Beaten(spans, s)
  }

  ghost predicate LongEnough(spans: seq<Span>, n: nat) {
    forall k :: 0 <= k < |spans| ==> spans[k].end - spans[k].start >= n
  }

  lemma BeatenStays(spans: seq<Span>, more: seq<Span>, s: Span)
    requires spans <= more && Beaten(spans, s)
    ensures Beaten(more, s)
  {
    var k :| 0 <= k < |spans| && Overlap(spans[k], s) && spans[k].end - spans[k].start >= s.end - s.start;
    assert more[k] == spans[k];
  }

  lemma OneHitMarked(text: string, v: string, values: set<string>, lineValues: set<string>, spans: seq<Span>, i: nat)
    requires v in values && v != "" && i in Scan(text, v, 0)
    requires Sound(text, values, lineValues, spans) && Disjoint(spans) && LongEnough(spans, |v|)
    ensures var next := MarkHit(text, v, lineValues, spans, i);
            && Sound(text, values, lineValues, next) && Disjoint(next) && LongEnough(next, |v|) && spans <= next
            && (Hit(text, v, lineValues, Span(i, i + |v|)) ==> Beaten(next, Span(i, i + |v|)))
  {
    var next := MarkHit(text, v, lineValues, spans, i);
    ScanFinds(text, v, 0, i);
    var s := Span(i, i + |v|);
    if next != spans {
      assert Hit(text, v, lineValues, s) && next[|spans|] == s;
      assert Beaten(next, s);
    }
  }

  lemma {:induction false} HitsMarked(text: string, v: string, values: set<string>, lineValues: set<string>,
                                      spans: seq<Span>, hits: seq<nat>)
    requires v in values && v != "" && forall i :: i in hits ==> i in Scan(text, v, 0)
    requires Sound(text, values, lineValues, spans) && Disjoint(spans) && LongEnough(spans, |v|)
    ensures var r := MarkHits(text, v, lineValues, spans, hits);
            && Sound(text, values, lineValues, r) && Disjoint(r) && LongEnough(r, |v|) && spans <= r
            && forall s: Span :: s.start in hits && Hit(text, v, lineValues, s) ==> Beaten(r, s)
    decreases |hits|
  {
    if hits != [] {
      OneHitMarked(text, v, values, lineValues, spans, hits[0]);
      var next := MarkHit(text, v, lineValues, spans, hits[0]);
      HitsMarked(text, v, values, lineValues, next, hits[1..]);
      var r := MarkHits(text, v, lineValues, spans, hits);
      forall t: Span | t.start == hits[0] && Hit(text, v, lineValues, t) ensures Beaten(r, t) {
        assert t == Span(hits[0], hits[0] + |v|);
        BeatenStays(next, r, t);
      }
    }
  }

  lemma SoundWiden(text: string, fewer: set<string>, values: set<string>, lineValues: set<string>, spans: seq<Span>)
    requires Sound(text, fewer, lineValues, spans) && fewer <= values
    ensures Sound(text, values, lineValues, spans)
  {
    forall k | 0 <= k < |spans| ensures HitOfAny(text, values, lineValues, spans[k]) {
      var v :| v in fewer && Hit(text, v, lineValues, spans[k]);
      assert v in values;
    }
  }

  function MarkValue(text: string, v: string, lineValues: set<string>, before: seq<Span>): seq<Span> {
    if v == "" then before else MarkHits(text, v, lineValues, before, Scan(text, v, 0))
  }

  /** What the marks of some values promise. */
  ghost predicate Marked(text: string, values: set<string>, lineValues: set<string>, spans: seq<Span>) {
    Sound(text, values, lineValues, spans) && Disjoint(spans) && Complete(text, values, lineValues, spans)
  }

  lemma ValueMarked(text: string, v: string, fewer: set<string>, lineValues: set<string>, before: seq<Span>)
    requires Marked(text, fewer, lineValues, before) && LongEnough(before, |v|)
    ensures var after := MarkValue(text, v, lineValues, before);
            Marked(text, fewer + {v}, lineValues, after) && LongEnough(after, |v|)
  {
    var after, values := MarkValue(text, v, lineValues, before), fewer + {v};
    SoundWiden(text, fewer, values, lineValues, before);
    if v != "" {
      HitsMarked(text, v, values, lineValues, before, Scan(text, v, 0));
    }
    forall w, s | w in values && Hit(text, w, lineValues, s) ensures Beaten(after, s) {
      if w in fewer {
        BeatenStays(before, after, s);
      }
    }
  }

  predicate Descending(order: seq<string>) {
    forall i, j :: 0 <= i < j < |order| ==> |order[i]| >= |order[j]|
  }

  lemma DescendingInit(init: seq<string>, v: string)
    requires Descending(init + [v])
    ensures Descending(init) && (init != [] ==> |init[|init| - 1]| >= |v|)
  {
    var order := init + [v];
    forall i, j | 0 <= i < j < |init| ensures |init[i]| >= |init[j]| {
      assert order[i] == init[i] && order[j] == init[j];
    }
    if init != [] {
      assert order[|init| - 1] == init[|init| - 1] && order[|init|] == v;
    }
  }

  lemma ElementsSnoc(init: seq<string>, v: string)
    ensures Elements(init + [v]) == Elements(init) + {v}
  {
  }

  lemma ShorterIsEnough(spans: seq<Span>, n: nat, m: nat)
    requires LongEnough(spans, n) && m <= n
    ensures LongEnough(spans, m)
  {
  }

  /** Whatever order the ties fall in. */
  lemma {:induction false} ValuesMarked(text: string, lineValues: set<string>, order: seq<string>)
    requires Descending(order)
    ensures Marked(text, Elements(order), lineValues, MarkValues(text, lineValues, order))
    ensures order != [] ==> LongEnough(MarkValues(text, lineValues, order), |order[|order| - 1]|)
    decreases |order|
  {
    if order != [] {
      var init, v := order[..|order| - 1], order[|order| - 1];
      assert order == init + [v];
      DescendingInit(init, v);
      ValuesMarked(text, lineValues, init);
      ElementsSnoc(init, v);
      var before := MarkValues(text, lineValues, init);
      if init != [] {
        ShorterIsEnough(before, |init[|init| - 1]|, |v|);
      }
      ValueMarked(text, v, Elements(init), lineValues, before);
    }
  }

  // -- the method -----------------------------------------------------------

  method Longest(remaining: set<string>) returns (v: string)
    requires remaining != {}
    ensures v in remaining && forall w :: w in remaining ==> |w| <= |v|
  {
    var rest := remaining;
    v :| v in rest;
    rest := rest - {v};
    while rest != {}
      invariant v in remaining && rest <= remaining
      invariant forall w :: w in remaining && w !in rest ==> |w| <= |v|
      decreases rest
    {
      var w :| w in rest;
      if |w| > |v| {
        v := w;
      }
      rest := rest - {w};
    }
  }

  /** The marked spans, in the order they were found. Which of two values of equal length goes
      first is left open, as Python leaves it open. */
  method FindSpans(text: string, all: set<string>, lineValues: set<string>) returns (spans: seq<Span>)
    ensures exists order :: LongestFirst(order, all) && spans == MarkValues(text, lineValues, order)
  {
    spans := [];
    ghost var order: seq<string> := [];
    var remaining := all;
    while remaining != {}
      invariant SoFar(order, all, remaining)
      invariant spans == MarkValues(text, lineValues, order)
      decreases remaining
    {
      var value := Longest(remaining);
      LongestNext(order, all, remaining, value);
      MarkValuesNext(text, lineValues, order, value);
      remaining := remaining - {value};
      order := order + [value];
      if value != "" {
        spans := MarkOneValue(text, value, lineValues, spans);
      }
    }
    assert LongestFirst(order, all);
  }

  /** The values taken, longest first; whatever remains is no longer. */
  ghost predicate SoFar(order: seq<string>, all: set<string>, remaining: set<string>) {
    && remaining <= all && (forall v :: v in order <==> v in all && v !in remaining)
    && Descending(order)
    && (forall i, v :: 0 <= i < |order| && v in remaining ==> |order[i]| >= |v|)
  }

  lemma LongestNext(order: seq<string>, all: set<string>, remaining: set<string>, value: string)
    requires SoFar(order, all, remaining) && value in remaining
    requires forall w :: w in remaining ==> |w| <= |value|
    ensures SoFar(order + [value], all, remaining - {value})
  {
  }

  lemma MarkValuesNext(text: string, lineValues: set<string>, order: seq<string>, value: string)
    ensures MarkValues(text, lineValues, order + [value]) ==
            MarkValue(text, value, lineValues, MarkValues(text, lineValues, order))
  {
    assert (order + [value])[..|order|] == order;
  }

  /** The test that passes over a line value in the wrong place. */
  predicate Disqualified(text: string, value: string, lineValues: set<string>, index: nat)
    requires index + |value| <= |text|
  {
    value in lineValues &&
    (!EndsWith(text[..index], ": ") || (index + |value| < |text| && text[index + |value|] != '\n'))
  }

  /** `any(index < e and end > s for s, e in spans)`. */
  predicate Overlapping(spans: seq<Span>, index: nat, end: nat) {
    exists k :: 0 <= k < |spans| && index < spans[k].end && end > spans[k].start
  }

  lemma MarkHitCases(text: string, value: string, lineValues: set<string>, spans: seq<Span>, index: nat)
    requires OccursAt(text, value, index)
    ensures MarkHit(text, value, lineValues, spans, index) ==
            if Disqualified(text, value, lineValues, index) || Overlapping(spans, index, index + |value|)
            then spans else spans + [Span(index, index + |value|)]
  {
    var s := Span(index, index + |value|);
    assert Disqualified(text, value, lineValues, index) <==> !Qualifies(text, value, lineValues, index);
    if Taken(spans, s) {
      var k :| 0 <= k < |spans| && Overlap(s, spans[k]);
      assert index < spans[k].end && index + |value| > spans[k].start;
    }
    if Overlapping(spans, index, index + |value|) {
      var k :| 0 <= k < |spans| && index < spans[k].end && index + |value| > spans[k].start;
      assert Overlap(s, spans[k]);
    }
  }

  /** The tests of a hit: it is skipped or appended. */
  method TryHit(text: string, value: string, lineValues: set<string>, before: seq<Span>, index: nat)
    returns (spans: seq<Span>)
    requires OccursAt(text, value, index)
    ensures spans == MarkHit(text, value, lineValues, before, index)
  {
    MarkHitCases(text, value, lineValues, before, index);
    if Disqualified(text, value, lineValues, index) {
      return before;
    }
    if Overlapping(before, index, index + |value|) {
      return before;
    }
    spans := before + [Span(index, index + |value|)];
  }

  method ApplyHit(text: string, value: string, lineValues: set<string>, before: seq<Span>, ghost from: nat, index: nat,
                  ghost all: seq<Span>)
    returns (spans: seq<Span>)
    requires value != "" && Find(text, value, from) == Some(index) &&
             Remains(text, value, lineValues, all, before, from)
    ensures from < index + |value| <= |text|
    ensures Remains(text, value, lineValues, all, spans, index + |value|)
  {
    HitStep(text, value, lineValues, all, before, from, index);
    spans := TryHit(text, value, lineValues, before, index);
  }

  /** One turn of the loop over a value's occurrences; the search goes on behind the hit. */
  method MarkOneHit(text: string, value: string, lineValues: set<string>, before: seq<Span>, from: nat, index: nat,
                    ghost all: seq<Span>)
    returns (spans: seq<Span>, start: nat, hit: Option<nat>)
    requires value != "" && Find(text, value, from) == Some(index) &&
             Remains(text, value, lineValues, all, before, from)
    ensures from < start <= |text| && hit == Find(text, value, start)
    ensures Remains(text, value, lineValues, all, spans, start)
  {
    spans := ApplyHit(text, value, lineValues, before, from, index, all);
    start := index + |value|;
    hit := Find(text, value, start);
  }

  method MarkOneValue(text: string, value: string, lineValues: set<string>, before: seq<Span>)
    returns (spans: seq<Span>)
    requires value != ""
    ensures spans == MarkHits(text, value, lineValues, before, Scan(text, value, 0))
  {
    spans := before;
    ghost var all := MarkHits(text, value, lineValues, before, Scan(text, value, 0));
    var start := 0;
    var hit := Find(text, value, start);
    while hit.Some?
      invariant hit == Find(text, value, start)
      invariant Remains(text, value, lineValues, all, spans, start)
      decreases |text| - start
    {
      spans, start, hit := MarkOneHit(text, value, lineValues, spans, start, hit.value, all);
    }
    NothingRemains(text, value, lineValues, all, spans, start);
  }

  /** What remains to be scanned completes the marks. */
  ghost predicate Remains(text: string, value: string, lineValues: set<string>, all: seq<Span>, spans: seq<Span>,
                          start: nat)
    requires value != ""
  {
    all == MarkHits(text, value, lineValues, spans, Scan(text, value, start))
  }

  lemma HitStep(text: string, value: string, lineValues: set<string>, all: seq<Span>, spans: seq<Span>, start: nat,
                index: nat)
    requires value != "" && Find(text, value, start) == Some(index) &&
             Remains(text, value, lineValues, all, spans, start)
    ensures start < index + |value| <= |text|
    ensures Remains(text, value, lineValues, all, MarkHit(text, value, lineValues, spans, index), index + |value|)
  {
    var rest := Scan(text, value, index + |value|);
    assert Scan(text, value, start) == [index] + rest;
    assert ([index] + rest)[1..] == rest;
  }

  lemma NothingRemains(text: string, value: string, lineValues: set<string>, all: seq<Span>, spans: seq<Span>,
                       start: nat)
    requires value != "" && Find(text, value, start).None? && Remains(text, value, lineValues, all, spans, start)
    ensures spans == all
  {
  }

  // -- sorting and measuring --------------------------------------------------

  ghost predicate Sorted(spans: seq<Span>) {
    forall i, j :: 0 <= i < j < |spans| ==> spans[i].end <= spans[j].start
  }

  /** Tuple order. */
  predicate Precedes(s: Span, t: Span) {
    s.start < t.start || (s.start == t.start && s.end <= t.end)
  }

  function Insert(s: Span, spans: seq<Span>): (r: seq<Span>)
    ensures multiset(r) == multiset(spans) + multiset{s}
  {
    if spans == [] then [s]
    else if Precedes(s, spans[0]) then [s] + spans
    else
      assert spans == [spans[0]] + spans[1..];
      [spans[0]] + Insert(s, spans[1..])
  }

  /** `sorted(spans)`. */
  function Sort(spans: seq<Span>): (r: seq<Span>)
    ensures multiset(r) == multiset(spans)
  {
    if spans == [] then []
    else
      assert spans == [spans[0]] + spans[1..];
      Insert(spans[0], Sort(spans[1..]))
  }

  ghost predicate Nonempty(spans: seq<Span>) {
    forall t :: t in spans ==> t.start < t.end
  }

  lemma {:induction false} InsertAdds(s: Span, spans: seq<Span>)
    ensures forall t :: t in Insert(s, spans) <==> t == s || t in spans
  {
    if spans != [] && !Precedes(s, spans[0]) {
      InsertAdds(s, spans[1..]);
      assert spans == [spans[0]] + spans[1..];
    }
  }

  predicate Apart(s: Span, spans: seq<Span>) {
    forall t :: t in spans ==> !Overlap(s, t)
  }

  predicate AllAfter(end: nat, spans: seq<Span>) {
    forall t :: t in spans ==> end <= t.start
  }

  lemma SortedCons(s: Span, spans: seq<Span>)
    ensures Sorted([s] + spans) <==> Sorted(spans) && AllAfter(s.end, spans)
  {
    var all := [s] + spans;
    if Sorted(all) {
      forall i, j | 0 <= i < j < |spans| ensures spans[i].end <= spans[j].start {
        assert all[i + 1].end <= all[j + 1].start;
      }
      forall t | t in spans ensures s.end <= t.start {
        var j :| 0 <= j < |spans| && spans[j] == t;
        assert all[0].end <= all[j + 1].start;
      }
    }
  }

  lemma {:induction false} InsertSorts(s: Span, spans: seq<Span>)
    requires Sorted(spans) && s.start < s.end && Nonempty(spans) && Apart(s, spans)
    ensures Sorted(Insert(s, spans))
  {
    if spans == [] {
    } else {
      var first, rest := spans[0], spans[1..];
      assert spans == [first] + rest;
      SortedCons(first, rest);
      assert !Overlap(s, first) && first.start < first.end;
      if Precedes(s, first) {
        SortedCons(s, spans);
      } else {
        InsertSorts(s, rest);
        InsertAdds(s, rest);
        SortedCons(first, Insert(s, rest));
      }
    }
  }

  lemma {:induction false} SortKeeps(spans: seq<Span>)
    ensures forall t :: t in Sort(spans) <==> t in spans
  {
    if spans != [] {
      SortKeeps(spans[1..]);
      InsertAdds(spans[0], Sort(spans[1..]));
      assert spans == [spans[0]] + spans[1..];
    }
  }

  lemma DisjointTail(spans: seq<Span>)
    requires Disjoint(spans) && spans != []
    ensures Disjoint(spans[1..]) && Apart(spans[0], spans[1..])
  {
    var rest := spans[1..];
    forall i, j | 0 <= i < |rest| && 0 <= j < |rest| && i != j ensures !Overlap(rest[i], rest[j]) {
      assert !Overlap(spans[i + 1], spans[j + 1]);
    }
    forall t | t in rest ensures !Overlap(spans[0], t) {
      var j :| 0 <= j < |rest| && rest[j] == t;
      assert !Overlap(spans[0], spans[j + 1]);
    }
  }

  lemma {:induction false} SortSorts(spans: seq<Span>)
    requires Disjoint(spans) && Nonempty(spans)
    ensures Sorted(Sort(spans)) && Nonempty(Sort(spans))
    ensures forall t :: t in Sort(spans) <==> t in spans
  {
    SortKeeps(spans);
    if spans != [] {
      DisjointTail(spans);
      SortSorts(spans[1..]);
      SortKeeps(spans[1..]);
      assert spans[0] in spans;
      InsertSorts(spans[0], Sort(spans[1..]));
    }
  }

  function Measure(text: string, s: Span): Entity
    requires s.start <= s.end <= |text|
  {
    Entity(Utf16.Length(text[..s.start]), Utf16.Length(text[s.start..s.end]))
  }

  /** The UTF-16 units an entity covers. */
  ghost predicate Covers(text: string, e: Entity, value: string) {
    var units := Utf16.Encode(text);
    0 <= e.offset && 0 <= e.length && e.offset + e.length <= |units| &&
    units[e.offset..e.offset + e.length] == Utf16.Encode(value)
  }

  lemma MeasureCovers(text: string, s: Span)
    requires s.start <= s.end <= |text|
    ensures Covers(text, Measure(text, s), text[s.start..s.end])
  {
    Utf16.SliceOfMiddle(text[..s.start], text[s.start..s.end], text[s.end..]);
    assert text[..s.start] + text[s.start..s.end] + text[s.end..] == text;
  }

  /** Putting a banner in front and moving the entity by its UTF-16 length covers the same value. */
  lemma ShiftCovers(banner: string, text: string, e: Entity, value: string)
    requires Covers(text, e, value)
    ensures Covers(banner + text, Entity(e.offset + Utf16.Length(banner), e.length), value)
  {
    Utf16.EncodeAppend(banner, text);
    Utf16.LengthCountsUnits(banner);
    SliceBehind(Utf16.Encode(banner), Utf16.Encode(text), e.offset, e.offset + e.length);
  }

  lemma SliceBehind(a: seq<int>, b: seq<int>, from: nat, to: nat)
    requires from <= to <= |b|
    ensures (a + b)[|a| + from..|a| + to] == b[from..to]
  {
  }

  /** `code_entities`: spans sorted and disjoint; every one a qualifying hit of a listed value whose
      entity covers exactly that value's UTF-16 form; every qualifying hit marked or beaten. */
  method MarkCode(text: string, values: set<string>, lineValues: set<string>)
    returns (entities: seq<Entity>, spans: seq<Span>)
    ensures Sorted(spans) && Nonempty(spans) && Sound(text, values + lineValues, lineValues, spans)
    ensures Complete(text, values + lineValues, lineValues, spans)
    ensures |entities| == |spans|
    ensures forall k :: 0 <= k < |spans| ==>
              spans[k].end <= |text| && Covers(text, entities[k], text[spans[k].start..spans[k].end])
  {
    var found := FindSpans(text, values + lineValues, lineValues);
    SomeOrderMarks(text, values + lineValues, lineValues, found);
    SortSorts(found);
    spans := Sort(found);
    SameMarks(text, values + lineValues, lineValues, found, spans);
    SoundIsInBounds(text, values + lineValues, lineValues, spans);
    entities := MeasureAll(text, spans);
  }

  method MeasureAll(text: string, spans: seq<Span>) returns (entities: seq<Entity>)
    requires forall k :: 0 <= k < |spans| ==> spans[k].start <= spans[k].end <= |text|
    ensures |entities| == |spans|
    ensures forall k :: 0 <= k < |spans| ==> Covers(text, entities[k], text[spans[k].start..spans[k].end])
  {
    entities := [];
    for k := 0 to |spans|
      invariant |entities| == k
      invariant forall i :: 0 <= i < k ==> Covers(text, entities[i], text[spans[i].start..spans[i].end])
    {
      MeasureCovers(text, spans[k]);
      entities := entities + [Measure(text, spans[k])];
    }
  }

  lemma SoundIsInBounds(text: string, values: set<string>, lineValues: set<string>, spans: seq<Span>)
    requires Sound(text, values, lineValues, spans)
    ensures forall k :: 0 <= k < |spans| ==> spans[k].start <= spans[k].end <= |text|
  {
    forall k | 0 <= k < |spans| ensures spans[k].start <= spans[k].end <= |text| {
      assert HitOfAny(text, values, lineValues, spans[k]);
      var v :| v in values && Hit(text, v, lineValues, spans[k]);
    }
  }

  lemma SomeOrderMarks(text: string, all: set<string>, lineValues: set<string>, spans: seq<Span>)
    requires exists order :: LongestFirst(order, all) && spans == MarkValues(text, lineValues, order)
    ensures Marked(text, all, lineValues, spans) && Nonempty(spans)
  {
    var order :| LongestFirst(order, all) && spans == MarkValues(text, lineValues, order);
    ValuesMarked(text, lineValues, order);
    assert Elements(order) == all;
    forall t | t in spans ensures t.start < t.end {
      var k :| 0 <= k < |spans| && spans[k] == t;
      assert HitOfAny(text, all, lineValues, spans[k]);
    }
  }

  lemma SameMarks(text: string, values: set<string>, lineValues: set<string>, a: seq<Span>, b: seq<Span>)
    requires Sound(text, values, lineValues, a) && Complete(text, values, lineValues, a)
    requires forall t :: t in b <==> t in a
    ensures Sound(text, values, lineValues, b) && Complete(text, values, lineValues, b)
  {
    forall k | 0 <= k < |b| ensures HitOfAny(text, values, lineValues, b[k]) {
      assert b[k] in a;
      var j :| 0 <= j < |a| && a[j] == b[k];
    }
    forall v, s | v in values && Hit(text, v, lineValues, s) ensures Beaten(b, s) {
      var k :| 0 <= k < |a| && Overlap(a[k], s) && a[k].end - a[k].start >= s.end - s.start;
      assert a[k] in b;
      var j :| 0 <= j < |b| && b[j] == a[k];
    }
  }

  /** `_refresh_screen`: a banner and a blank line in front, every entity moved along. */
  method RefreshScreen(banner: string, text: string, entities: seq<Entity>)
    returns (shown: string, shifted: seq<Entity>)
    ensures shown == banner + "\n\n" + text && |shifted| == |entities|
    ensures forall k, value :: 0 <= k < |entities| && Covers(text, entities[k], value) ==>
              Covers(shown, shifted[k], value)
  {
    shown := banner + "\n\n" + text;
    var offset := Utf16.Length(banner + "\n\n");
    shifted := seq(|entities|, k requires 0 <= k < |entities| =>
                   Entity(entities[k].offset + offset, entities[k].length));
    forall k, value | 0 <= k < |entities| && Covers(text, entities[k], value) ensures Covers(shown, shifted[k], value) {
      ShiftCovers(banner + "\n\n", text, entities[k], value);
    }
  }
}

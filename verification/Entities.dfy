/** The post-NLP part of the producer's entity extraction
    (websites/WebsiteBase.py): problem entities found by substring search,
    the label / stop-word / bad-entity / duplicate filter over the recogniser's
    spans, the in-place "blank the shorter of two similar entries" pass, the
    compaction that follows it, and the mapping of labels onto the article's
    five entity lists. The recogniser itself is a parameter: its output is the
    sequence of spans it found. */
module Entities {
  import opened Seqs
  import opened TextFilters
  import opened Articles

  /** A recognised or configured entity: its text and its label. */
  datatype Span = Span(text: string, kind: string)

  /** The labels the producer keeps. */
  const GoodLabels: seq<string> := ["PERSON", "FACILITY", "FAC", "ORG", "GPE", "EVENT"]

  /** The result dictionary; a missing label reads as an empty list. */
  type EntityDict = map<string, seq<string>>

  function Get(d: EntityDict, l: string): seq<string> {
    if l in d then d[l] else []
  }

  /** `x` is listed under some label. */
  predicate Appears(d: EntityDict, x: string) {
    exists l :: l in d && x in d[l]
  }

  /** `e in t` for strings: `e` occurs somewhere in `t`. */
  predicate Contains(t: string, e: string)
    decreases |t|
  {
    e <= t || (t != [] && Contains(t[1..], e))
  }

  /** The list under `l` with `x` appended (the defaultdict append). */
  function Append(d: EntityDict, l: string, x: string): (r: EntityDict)
    ensures Get(r, l) == Get(d, l) + [x]
    ensures forall k :: k != l ==> Get(r, k) == Get(d, k)
  {
    d[l := Get(d, l) + [x]]
  }

  // ---- _ProcessProblemEntities ----

  /** The dictionary after the problem-entity pass over `problems`. */
  function WithProblems(text: string, d: EntityDict, problems: seq<Span>): EntityDict
    decreases |problems|
  {
    if problems == [] then d
    else
      var r := WithProblems(text, d, problems[..|problems| - 1]);
      var p := problems[|problems| - 1];
      if Contains(text, p.text) then Append(r, p.kind, p.text) else r
  }

  /** The problem entities with label `l` that occur in `text`, in order. */
  function Matching(text: string, problems: seq<Span>, l: string): (r: seq<string>)
    ensures forall x :: x in r ==> Contains(text, x) && Span(x, l) in problems
    decreases |problems|
  {
    if problems == [] then []
    else
      var p := problems[|problems| - 1];
      Matching(text, problems[..|problems| - 1], l) + (if p.kind == l && Contains(text, p.text) then [p.text] else [])
  }

  /** Each label's list gains exactly its matching problem entities, in list
      order, after its existing entries; so other labels keep their lists. */
  lemma {:induction false} WithProblemsOutcome(text: string, d: EntityDict, problems: seq<Span>, l: string)
    ensures Get(WithProblems(text, d, problems), l) == Get(d, l) + Matching(text, problems, l)
    decreases |problems|
  {
    if problems != [] {
      WithProblemsOutcome(text, d, problems[..|problems| - 1], l);
    }
  }

  /** _ProcessProblemEntities: append every configured entity that occurs in
      the text to the list of its label. */
  method ProcessProblemEntities(text: string, d: EntityDict, problems: seq<Span>) returns (r: EntityDict)
    ensures r == WithProblems(text, d, problems)
  {
    r := d;
    for i := 0 to |problems|
      invariant r == WithProblems(text, d, problems[..i])
    {
      assert problems[..i + 1][..i] == problems[..i];
      if Contains(text, problems[i].text) {
        r := Append(r, problems[i].kind, problems[i].text);
      }
    }
    assert problems[..|problems|] == problems;
  }

  // ---- the filter loop of _GetEntities ----

  /** The stop-word-stripped text of a span. */
  function Cleaned(s: Span): string {
    RemoveStopWords(s.text)
  }

  /** A span is admitted when its label is kept and its cleaned text is
      non-empty, not a bad entity and not yet listed under any label. */
  predicate Admitted(d: EntityDict, s: Span) {
    s.kind in GoodLabels && Cleaned(s) != "" && !IsBadEntity(Cleaned(s)) && !Appears(d, Cleaned(s))
  }

  /** One turn of the filter loop: an admitted span's stripped text is
      appended under its label. */
  function AddEntity(d: EntityDict, s: Span): EntityDict {
    if Admitted(d, s) then Append(d, s.kind, Strip(Cleaned(s))) else d
  }

  /** The filter loop over the recogniser's spans. */
  function AddAll(d: EntityDict, spans: seq<Span>): EntityDict
    decreases |spans|
  {
    if spans == [] then d else AddEntity(AddAll(d, spans[..|spans| - 1]), spans[|spans| - 1])
  }

  /** The text stored is the text the filters looked at: stop-word removal leaves nothing
      for the final strip to remove. */
  lemma StripCleaned(s: Span)
    ensures Strip(Cleaned(s)) == Cleaned(s)
  {
    StripNoEdgeSpace(Cleaned(s));
  }

  /** The entries `r` has under `l` beyond those `d` had. */
  function Added(d: EntityDict, r: EntityDict, l: string): seq<string> {
    if |Get(d, l)| <= |Get(r, l)| then Get(r, l)[|Get(d, l)|..] else []
  }

  /** Lists that `d` has are prefixes of those `r` has. */
  ghost predicate GrowsFrom(d: EntityDict, r: EntityDict) {
    forall l :: Get(d, l) <= Get(r, l)
  }

  lemma AppearsGrows(d: EntityDict, r: EntityDict, x: string)
    requires GrowsFrom(d, r)
    requires Appears(d, x)
    ensures Appears(r, x)
  {
    var l :| l in d && x in d[l];
    assert x in Get(r, l);
    assert l in r;
  }

  lemma AddedAppend(d: EntityDict, m: EntityDict, r: EntityDict, l: string, t: seq<string>)
    requires Get(d, l) <= Get(m, l)
    requires Get(r, l) == Get(m, l) + t
    ensures Added(d, r, l) == Added(d, m, l) + t
  {
  }

  /** The filter loop only appends to lists, and only under the six kept
      labels. */
  lemma {:induction false} AddAllGrows(d: EntityDict, spans: seq<Span>)
    ensures GrowsFrom(d, AddAll(d, spans))
    ensures forall l :: l !in GoodLabels ==> Get(AddAll(d, spans), l) == Get(d, l)
    decreases |spans|
  {
    if spans != [] {
      var m := AddAll(d, spans[..|spans| - 1]);
      var r := AddAll(d, spans);
      AddAllGrows(d, spans[..|spans| - 1]);
      forall l ensures Get(d, l) <= Get(r, l) {
        assert Get(m, l) <= Get(r, l);
      }
    }
  }

  /** `x`, listed under `l`, is the non-empty, not-bad cleaned text of one
      of `spans` with that label, and was listed under no label in `d`. */
  ghost predicate AdmittedFrom(d: EntityDict, spans: seq<Span>, l: string, x: string) {
    l in GoodLabels && x != "" && !IsBadEntity(x) && !Appears(d, x)
    && exists s :: s in spans && s.kind == l && Cleaned(s) == x
  }

  /** Every entry the filter loop adds was admitted from one of the spans. */
  lemma {:induction false} AddAllAdmits(d: EntityDict, spans: seq<Span>)
    ensures forall l, x :: x in Added(d, AddAll(d, spans), l) ==> AdmittedFrom(d, spans, l, x)
    decreases |spans|
  {
    if spans != [] {
      var init := spans[..|spans| - 1];
      var s := spans[|spans| - 1];
      var m := AddAll(d, init);
      var r := AddAll(d, spans);
      AddAllAdmits(d, init);
      AddAllGrows(d, init);
      StripCleaned(s);
      forall l, x | x in Added(d, r, l) ensures AdmittedFrom(d, spans, l, x) {
        AdmitsStep(d, init, s, m, l, x);
      }
    }
  }

  /** The induction step of AddAllAdmits, over plain values. */
  lemma AdmitsStep(d: EntityDict, init: seq<Span>, s: Span, m: EntityDict, l: string, x: string)
    requires GrowsFrom(d, m)
    requires forall l, x :: x in Added(d, m, l) ==> AdmittedFrom(d, init, l, x)
    requires x in Added(d, AddEntity(m, s), l)
    ensures AdmittedFrom(d, init + [s], l, x)
  {
    var r := AddEntity(m, s);
    StripCleaned(s);
    if Admitted(m, s) && l == s.kind {
      AddedAppend(d, m, r, l, [Cleaned(s)]);
      if x == Cleaned(s) {
        if Appears(d, x) {
          AppearsGrows(d, m, x);
        }
        assert s in init + [s];
      } else {
        assert x in Added(d, m, l);
        var t :| t in init && t.kind == l && Cleaned(t) == x;
        assert t in init + [s];
      }
    } else {
      assert Get(r, l) == Get(m, l) + [];
      AddedAppend(d, m, r, l, []);
      assert x in Added(d, m, l);
      var t :| t in init && t.kind == l && Cleaned(t) == x;
      assert t in init + [s];
    }
  }

  /** No text is added twice, neither under two labels nor twice under one. */
  lemma {:induction false} AddAllDistinct(d: EntityDict, spans: seq<Span>)
    ensures forall l, l', x :: x in Added(d, AddAll(d, spans), l) && x in Added(d, AddAll(d, spans), l') ==> l == l'
    ensures forall l, i, j :: 0 <= i < j < |Added(d, AddAll(d, spans), l)| ==>
              Added(d, AddAll(d, spans), l)[i] != Added(d, AddAll(d, spans), l)[j]
    decreases |spans|
  {
    if spans != [] {
      var init := spans[..|spans| - 1];
      var s := spans[|spans| - 1];
      var m := AddAll(d, init);
      AddAllDistinct(d, init);
      AddAllGrows(d, init);
      if Admitted(m, s) {
        StripCleaned(s);
        DistinctStep(d, m, AddAll(d, spans), s.kind, Cleaned(s));
      }
    }
  }

  /** Appending a text that is listed nowhere keeps the added entries
      distinct. */
  lemma DistinctStep(d: EntityDict, m: EntityDict, r: EntityDict, k: string, x: string)
    requires GrowsFrom(d, m)
    requires forall l, l', y :: y in Added(d, m, l) && y in Added(d, m, l') ==> l == l'
    requires forall l, i, j :: 0 <= i < j < |Added(d, m, l)| ==> Added(d, m, l)[i] != Added(d, m, l)[j]
    requires !Appears(m, x)
    requires r == Append(m, k, x)
    ensures forall l, l', y :: y in Added(d, r, l) && y in Added(d, r, l') ==> l == l'
    ensures forall l, i, j :: 0 <= i < j < |Added(d, r, l)| ==> Added(d, r, l)[i] != Added(d, r, l)[j]
  {
    AddedAppend(d, m, r, k, [x]);
    forall l | l != k ensures Added(d, r, l) == Added(d, m, l) {
      AddedAppend(d, m, r, l, []);
    }
  }

  /** Every span that passes the label, emptiness and bad-entity tests ends
      up listed under some label: if it was not listed already, its own turn
      lists it. */
  lemma {:induction false} AddAllComplete(d: EntityDict, spans: seq<Span>)
    ensures forall s :: s in spans && s.kind in GoodLabels && Cleaned(s) != "" && !IsBadEntity(Cleaned(s)) ==>
              Appears(AddAll(d, spans), Cleaned(s))
    decreases |spans|
  {
    if spans != [] {
      var init := spans[..|spans| - 1];
      var s := spans[|spans| - 1];
      var m := AddAll(d, init);
      var r := AddAll(d, spans);
      AddAllComplete(d, init);
      StripCleaned(s);
      assert GrowsFrom(m, r);
      forall t | t in spans && t.kind in GoodLabels && Cleaned(t) != "" && !IsBadEntity(Cleaned(t))
        ensures Appears(r, Cleaned(t))
      {
        if t == s {
          if Appears(m, Cleaned(s)) {
            AppearsGrows(m, r, Cleaned(s));
          } else {
            assert Cleaned(s) in Get(r, s.kind);
            assert s.kind in r;
          }
        } else {
          assert t in init;
          AppearsGrows(m, r, Cleaned(t));
        }
      }
    }
  }

  /** Whether `x` is listed under some label: the inner loop over the
      dictionary's items. */
  method AlreadyListed(d: EntityDict, x: string) returns (found: bool)
    ensures found == Appears(d, x)
  {
    var keys := d.Keys;
    while keys != {}
      invariant keys <= d.Keys
      invariant forall l :: l in d && l !in keys ==> x !in d[l]
      decreases keys
    {
      var l :| l in keys;
      if x in d[l] {
        return true;
      }
      keys := keys - {l};
    }
    return false;
  }

  /** The filter loop of _GetEntities over the recogniser's spans. */
  method AddNlpEntities(d: EntityDict, spans: seq<Span>) returns (r: EntityDict)
    ensures r == AddAll(d, spans)
  {
    r := d;
    for i := 0 to |spans|
      invariant r == AddAll(d, spans[..i])
    {
      assert spans[..i + 1][..i] == spans[..i];
      var s := spans[i];
      if s.kind in GoodLabels {
        var t := RemoveStopWords(s.text);
        if t != "" && !IsBadEntity(t) {
          var listed := AlreadyListed(r, t);
          if !listed {
            r := Append(r, s.kind, Strip(t));
          }
        }
      }
    }
    assert spans[..|spans|] == spans;
  }

  // ---- the collapse pass of _GetEntities ----

  /** Entry `k` of `o` may be blanked: a different entry of the same list is
      judged similar to it and is at least as long (strictly longer when `k`
      is the entry being scanned from, as long or longer when it is the entry
      being compared against). */
  ghost predicate Dropped(o: seq<string>, k: int, score: (string, string) -> int, ratio: int)
    requires 0 <= k < |o|
  {
    exists m :: 0 <= m < |o| && o[m] != o[k]
      && ((CheckSimilarity(o[k], o[m], score, ratio) && |o[k]| < |o[m]|)
          || (CheckSimilarity(o[m], o[k], score, ratio) && |o[m]| >= |o[k]|))
  }

  /** A blank entry is never dropped, and a drop is always justified by a
      non-blank entry with a different text that is at least as long: the
      empty-string guard of the similarity test keeps blanks out of every
      comparison. */
  lemma DroppedNeedsText(o: seq<string>, k: int, score: (string, string) -> int, ratio: int)
    requires 0 <= k < |o|
    ensures Dropped(o, k, score, ratio) ==>
              o[k] != "" && exists m :: 0 <= m < |o| && o[m] != "" && o[m] != o[k] && |o[m]| >= |o[k]|
  {
    if Dropped(o, k, score, ratio) {
      var m :| 0 <= m < |o| && o[m] != o[k]
        && ((CheckSimilarity(o[k], o[m], score, ratio) && |o[k]| < |o[m]|)
            || (CheckSimilarity(o[m], o[k], score, ratio) && |o[m]| >= |o[k]|));
      CheckSimilarityGuard(o[k], o[m], score, ratio);
      CheckSimilarityGuard(o[m], o[k], score, ratio);
    }
  }

  /** Every entry of `a` is the original one or a blank that was justified. */
  ghost predicate BlankedFrom(a: seq<string>, o: seq<string>, score: (string, string) -> int, ratio: int) {
    |a| == |o| && forall k :: 0 <= k < |a| ==> a[k] == o[k] || (a[k] == "" && Dropped(o, k, score, ratio))
  }

  /** No two non-blank entries with different texts are judged similar. */
  predicate NoSimilarPair(a: seq<string>, score: (string, string) -> int, ratio: int) {
    forall p, q :: 0 <= p < |a| && 0 <= q < |a| && a[p] != "" && a[q] != "" && a[p] != a[q] ==>
      !CheckSimilarity(a[p], a[q], score, ratio)
  }

  predicate HasEntry(a: seq<string>) {
    exists k :: 0 <= k < |a| && a[k] != ""
  }

  /** Entry `p` is non-blank only if no other non-blank entry with a
      different text is judged similar to it. */
  predicate Settled(a: seq<string>, p: int, score: (string, string) -> int, ratio: int)
    requires 0 <= p < |a|
  {
    a[p] != "" ==> forall q :: 0 <= q < |a| && a[q] != "" && a[p] != a[q] ==> !CheckSimilarity(a[p], a[q], score, ratio)
  }

  /** The same, for the entries before `j` only. */
  predicate SettledBelow(a: seq<string>, p: int, j: int, score: (string, string) -> int, ratio: int)
    requires 0 <= p < |a| && 0 <= j <= |a|
  {
    a[p] != "" ==> forall q :: 0 <= q < j && a[q] != "" && a[p] != a[q] ==> !CheckSimilarity(a[p], a[q], score, ratio)
  }

  /** Blanking entry `k` of `b`, which a different non-blank entry `w`
      justifies, giving `c`, keeps every invariant of the pass. */
  lemma BlankStep(b: seq<string>, c: seq<string>, o: seq<string>, i: int, j: int, k: int, w: int,
                  score: (string, string) -> int, ratio: int)
    requires BlankedFrom(b, o, score, ratio)
    requires 0 <= i < |b| && 0 <= j < |b| && 0 <= k < |b| && 0 <= w < |b| && k != w && b[w] != ""
    requires c == b[k := ""]
    requires Dropped(o, k, score, ratio)
    requires forall p :: 0 <= p < i ==> Settled(b, p, score, ratio)
    requires k == j ==> SettledBelow(b, i, j, score, ratio)
    ensures BlankedFrom(c, o, score, ratio)
    ensures forall p :: 0 <= p < i ==> Settled(c, p, score, ratio)
    ensures k == j ==> SettledBelow(c, i, j + 1, score, ratio)
    ensures HasEntry(c)
  {
    assert c[w] != "";
    forall p | 0 <= p < i ensures Settled(c, p, score, ratio) {
      assert Settled(b, p, score, ratio);
    }
  }

  /** The pairwise pass over one label's list, in place: for each entry and
      each other entry with a different text, both non-blank and judged
      similar, blank the scanning entry (and stop scanning from it) when it
      is strictly shorter, otherwise blank the other one. */
  method Collapse(a: array<string>, score: (string, string) -> int, ratio: int)
    modifies a
    ensures BlankedFrom(a[..], old(a[..]), score, ratio)
    ensures NoSimilarPair(a[..], score, ratio)
    ensures HasEntry(old(a[..])) ==> HasEntry(a[..])
  {
    ghost var o := a[..];
    var i := 0;
    while i < a.Length
      invariant 0 <= i <= a.Length
      invariant BlankedFrom(a[..], o, score, ratio)
      invariant forall p :: 0 <= p < i ==> Settled(a[..], p, score, ratio)
      invariant HasEntry(o) ==> HasEntry(a[..])
    {
      CollapseFrom(a, i, score, ratio, o);
      i := i + 1;
    }
    forall p, q | 0 <= p < a.Length && 0 <= q < a.Length && a[p] != "" && a[q] != "" && a[p] != a[q]
      ensures !CheckSimilarity(a[p], a[q], score, ratio)
    {
      assert Settled(a[..], p, score, ratio);
    }
  }

  /** The inner loop of the pass, scanning from entry `i`. */
  method CollapseFrom(a: array<string>, i: int, score: (string, string) -> int, ratio: int, ghost o: seq<string>)
    requires 0 <= i < a.Length
    requires BlankedFrom(a[..], o, score, ratio)
    requires forall p :: 0 <= p < i ==> Settled(a[..], p, score, ratio)
    requires HasEntry(o) ==> HasEntry(a[..])
    modifies a
    ensures BlankedFrom(a[..], o, score, ratio)
    ensures forall p :: 0 <= p <= i ==> Settled(a[..], p, score, ratio)
    ensures HasEntry(o) ==> HasEntry(a[..])
  {
    var j := 0;
    var stop := false;
    while j < a.Length && !stop
      invariant 0 <= j <= a.Length
      invariant BlankedFrom(a[..], o, score, ratio)
      invariant forall p :: 0 <= p < i ==> Settled(a[..], p, score, ratio)
      invariant stop ==> a[i] == ""
      invariant !stop ==> SettledBelow(a[..], i, j, score, ratio)
      invariant HasEntry(o) ==> HasEntry(a[..])
    {
      stop := CompareAt(a, i, j, score, ratio, o);
      j := j + 1;
    }
    assert Settled(a[..], i, score, ratio);
  }

  /** One comparison of the pass: entry `i` against entry `j`; `stop` tells
      that entry `i` was blanked and the scan from it ends. */
  method CompareAt(a: array<string>, i: int, j: int, score: (string, string) -> int, ratio: int, ghost o: seq<string>)
    returns (stop: bool)
    requires 0 <= i < a.Length && 0 <= j < a.Length
    requires BlankedFrom(a[..], o, score, ratio)
    requires forall p :: 0 <= p < i ==> Settled(a[..], p, score, ratio)
    requires SettledBelow(a[..], i, j, score, ratio)
    requires HasEntry(o) ==> HasEntry(a[..])
    modifies a
    ensures BlankedFrom(a[..], o, score, ratio)
    ensures forall p :: 0 <= p < i ==> Settled(a[..], p, score, ratio)
    ensures stop ==> a[i] == ""
    ensures !stop ==> SettledBelow(a[..], i, j + 1, score, ratio)
    ensures HasEntry(o) ==> HasEntry(a[..])
  {
    ghost var b := a[..];
    stop := false;
    if a[i] != a[j] && a[j] != "" && a[i] != "" && CheckSimilarity(a[i], a[j], score, ratio) {
      assert b[i] == o[i] && b[j] == o[j];
      if |a[i]| < |a[j]| {
        assert Dropped(o, i, score, ratio);
        a[i] := "";
        BlankStep(b, a[..], o, i, j, i, j, score, ratio);
        stop := true;
      } else {
        assert Dropped(o, j, score, ratio);
        a[j] := "";
        BlankStep(b, a[..], o, i, j, j, i, score, ratio);
      }
    }
  }

  // ---- compaction ----

  /** `[x for x in lst if x != str()]` */
  function Compact(a: seq<string>): (r: seq<string>)
    ensures forall x :: x in r <==> x in a && x != ""
  {
    Select(a, (x: string) => x != "")
  }

  /** Compacting a list whose entries were only ever blanked leaves an
      order-preserving subsequence of the original list. */
  lemma {:induction false} CompactOfBlanked(a: seq<string>, o: seq<string>)
    requires |a| == |o|
    requires forall k :: 0 <= k < |a| ==> a[k] == o[k] || a[k] == ""
    ensures IsSubsequence(Compact(a), o)
  {
    if a == [] {
    } else {
      CompactOfBlanked(a[1..], o[1..]);
      var rest := Compact(a[1..]);
      assert Compact(a) == (if a[0] != "" then [a[0]] else []) + rest;
      if a[0] != "" {
        assert Compact(a)[0] == o[0] && Compact(a)[1..] == rest;
      } else {
        assert Compact(a) == rest;
      }
    }
  }

  /** What the collapse and compaction do to one label's list `o`. */
  ghost predicate CollapsedFrom(r: seq<string>, o: seq<string>, score: (string, string) -> int, ratio: int) {
    (forall x :: x in r ==> x != "")
    && IsSubsequence(r, o)
    && (forall x, y :: x in r && y in r && x != y ==> !CheckSimilarity(x, y, score, ratio))
    && (forall k :: 0 <= k < |o| && o[k] != "" && o[k] !in r ==> Dropped(o, k, score, ratio))
    && (HasEntry(o) ==> r != [])
  }

  /** Collapse then compact one label's list. */
  method CollapseList(o: seq<string>, score: (string, string) -> int, ratio: int) returns (r: seq<string>)
    ensures CollapsedFrom(r, o, score, ratio)
  {
    var a := new string[|o|](k requires 0 <= k < |o| => o[k]);
    assert a[..] == o;
    Collapse(a, score, ratio);
    var b := a[..];
    r := Compact(b);
    CompactOfBlanked(b, o);
    forall x, y | x in r && y in r && x != y ensures !CheckSimilarity(x, y, score, ratio) {
      var p :| 0 <= p < |b| && b[p] == x;
      var q :| 0 <= q < |b| && b[q] == y;
    }
    if HasEntry(o) {
      var k :| 0 <= k < |b| && b[k] != "";
      assert b[k] in r;
    }
  }

  /** The collapse loop over every label, then the compaction. */
  method CollapseAll(d: EntityDict, score: (string, string) -> int, ratio: int) returns (r: EntityDict)
    ensures r.Keys == d.Keys
    ensures forall l :: l in d ==> CollapsedFrom(r[l], d[l], score, ratio)
  {
    r := map[];
    var keys := d.Keys;
    while keys != {}
      invariant keys <= d.Keys
      invariant r.Keys == d.Keys - keys
      invariant forall l :: l in r ==> CollapsedFrom(r[l], d[l], score, ratio)
      decreases keys
    {
      var l :| l in keys;
      var c := CollapseList(d[l], score, ratio);
      r := r[l := c];
      keys := keys - {l};
    }
  }

  /** _GetEntities after the recogniser has produced `spans`: nothing for an
      empty text; otherwise the problem entities, then the filtered spans,
      then the collapse and compaction of every label's list. */
  method GetEntities(text: string, spans: seq<Span>, problems: seq<Span>, score: (string, string) -> int, ratio: int)
    returns (r: EntityDict)
    ensures text == "" ==> r == map[]
    ensures text != "" ==> r.Keys == AddAll(WithProblems(text, map[], problems), spans).Keys
    ensures text != "" ==> forall l :: l in r ==>
              CollapsedFrom(r[l], AddAll(WithProblems(text, map[], problems), spans)[l], score, ratio)
  {
    if text == "" {
      return map[];
    }
    var d := ProcessProblemEntities(text, map[], problems);
    d := AddNlpEntities(d, spans);
    r := CollapseAll(d, score, ratio);
  }

  // ---- ProcessFeed's label mapping ----

  /** The article's entity lists extended from the dictionary: GPE gives
      locations, FACILITY then FAC give facilities, PERSON people, ORG
      organizations and EVENT events; each list keeps its entries and
      gains the dictionary's, in order and with their repetitions; the
      text fields are kept. */
  function Populate(art: ExtractedArticle, d: EntityDict): (r: ExtractedArticle)
    ensures r.articleTitle == art.articleTitle && r.articleText == art.articleText
            && r.articleURL == art.articleURL && r.website == art.website
    ensures art.locations <= r.locations && r.locations[|art.locations|..] == Get(d, "GPE")
    ensures art.facilities <= r.facilities
            && r.facilities[|art.facilities|..] == Get(d, "FACILITY") + Get(d, "FAC")
    ensures art.people <= r.people && r.people[|art.people|..] == Get(d, "PERSON")
    ensures art.organizations <= r.organizations && r.organizations[|art.organizations|..] == Get(d, "ORG")
    ensures art.events <= r.events && r.events[|art.events|..] == Get(d, "EVENT")
    ensures forall x :: x in r.locations <==> x in art.locations || x in Get(d, "GPE")
    ensures forall x :: x in r.facilities <==> x in art.facilities || x in Get(d, "FACILITY") || x in Get(d, "FAC")
    ensures forall x :: x in r.people <==> x in art.people || x in Get(d, "PERSON")
    ensures forall x :: x in r.organizations <==> x in art.organizations || x in Get(d, "ORG")
    ensures forall x :: x in r.events <==> x in art.events || x in Get(d, "EVENT")
  {
    art.(locations := art.locations + Get(d, "GPE"),
         facilities := art.facilities + Get(d, "FACILITY") + Get(d, "FAC"),
         people := art.people + Get(d, "PERSON"),
         organizations := art.organizations + Get(d, "ORG"),
         events := art.events + Get(d, "EVENT"))
  }

  /** Populating an article never turns it into the termination marker. */
  lemma PopulateKeepsMarker(art: ExtractedArticle, d: EntityDict)
    ensures IsPoisonPill(Populate(art, d)) <==> IsPoisonPill(art)
  {
  }
}

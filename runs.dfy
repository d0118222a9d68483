/** Properties of a whole run of the loop in `main`: what the output holds
    with and without `-d`, and where `-m` makes the loop stop. */
module Runs {
  import opened Events
  import opened Shaping

  // ---------------------------------------------------------------------
  // Reference definitions over a sequence of events

  function Elems(s: seq<string>): set<string> {
    set x | x in s
  }

  lemma ElemsConcat(a: seq<string>, b: seq<string>)
    ensures Elems(a + b) == Elems(a) + Elems(b)
  {
  }

  predicate Distinct(s: seq<string>) {
    forall i, j :: 0 <= i < j < |s| ==> s[i] != s[j]
  }

  /** `outs` holds the outcome of each event in turn: its shaped line, or
      None. The trigger keeps the outcome of an event from being unfolded
      where only the sequence of outcomes matters. */
  predicate OutcomesOf(events: seq<Event>, limit: int, outs: seq<Option<string>>) {
    && |outs| == |events|
    && forall i {:trigger LineOf(events[i], limit)} :: 0 <= i < |events| ==> outs[i] == LineOf(events[i], limit)
  }

  /** Every line of the first `n` outcomes, in order, skipped events left
      out. */
  function Lines(outs: seq<Option<string>>, n: nat): seq<string>
    requires n <= |outs|
  {
    if n == 0 then []
    else
      match outs[n - 1]
      case None => Lines(outs, n - 1)
      case Some(l) => Lines(outs, n - 1) + [l]
  }

  /** The first occurrence of each line not already in `seen`. */
  function Dedup(lines: seq<string>, seen: set<string>): seq<string>
    decreases |lines|
  {
    if lines == [] then []
    else if lines[0] in seen then Dedup(lines[1..], seen)
    else [lines[0]] + Dedup(lines[1..], seen + {lines[0]})
  }

  /** What `format` writes for the first `n` outcomes, one step at a time:
      each line is admitted against `seen` and the lines written before it. */
  function Emitted(outs: seq<Option<string>>, n: nat, showDupes: bool, seen: set<string>): seq<string>
    requires n <= |outs|
  {
    if n == 0 then [] else Next(Emitted(outs, n - 1, showDupes, seen), outs[n - 1], showDupes, seen)
  }

  /** One step of `Emitted`: the written lines after one more outcome. */
  function Next(prev: seq<string>, o: Option<string>, showDupes: bool, seen: set<string>): seq<string> {
    prev + Fresh(o, seen + Elems(prev), showDupes)
  }

  /** The seen set after the first `n` outcomes, started from `seen`. */
  function SeenAfter(outs: seq<Option<string>>, n: nat, showDupes: bool, seen: set<string>): set<string>
    requires n <= |outs|
  {
    if showDupes then seen else seen + Elems(Emitted(outs, n, showDupes, seen))
  }

  /** Admitting one more outcome against the seen set of a prefix extends
      the emitted lines and the seen set of the longer prefix. */
  lemma EmittedStep(outs: seq<Option<string>>, i: nat, showDupes: bool, seen: set<string>,
                    em: seq<string>, sn: set<string>, added: seq<string>)
    requires i < |outs|
    requires em == Emitted(outs, i, showDupes, seen)
    requires sn == SeenAfter(outs, i, showDupes, seen)
    requires added == Fresh(outs[i], sn, showDupes)
    ensures |added| <= 1
    ensures Emitted(outs, i + 1, showDupes, seen) == em + added
    ensures SeenAfter(outs, i + 1, showDupes, seen) == sn + (if showDupes then {} else Elems(added))
  {
    assert added == Fresh(outs[i], seen + Elems(em), showDupes);
    ElemsConcat(em, added);
  }

  /** No prefix of length 1 to `n` wrote exactly `count` lines. */
  predicate Unreached(outs: seq<Option<string>>, count: int, showDupes: bool, seen: set<string>, n: nat)
    requires n <= |outs|
  {
    forall j :: 0 < j <= n ==> |Emitted(outs, j, showDupes, seen)| != count
  }

  /** The loop of `main` stops after `n` outcomes: the first prefix after
      which exactly `count` lines were written, or the whole input. */
  predicate StopsAt(outs: seq<Option<string>>, count: int, showDupes: bool, seen: set<string>, n: nat) {
    && n <= |outs|
    && (n == |outs| || (0 < n && |Emitted(outs, n, showDupes, seen)| == count))
    && Unreached(outs, count, showDupes, seen, if n == 0 then 0 else n - 1)
  }

  lemma UnreachedStep(outs: seq<Option<string>>, count: int, showDupes: bool, seen: set<string>, i: nat)
    requires i < |outs|
    requires Unreached(outs, count, showDupes, seen, i)
    requires |Emitted(outs, i + 1, showDupes, seen)| != count
    ensures Unreached(outs, count, showDupes, seen, i + 1)
  {
  }

  /** What the loop of `main` knows after `i` outcomes, `skipped` of
      which wrote nothing: the output so far and the seen set. */
  predicate Tracks(outs: seq<Option<string>>, count: int, showDupes: bool,
                   i: nat, skipped: int, written: seq<string>, seen: set<string>) {
    && 0 <= skipped <= i <= |outs|
    && written == Emitted(outs, i, showDupes, {})
    && seen == SeenAfter(outs, i, showDupes, {})
    && i - skipped == |written|
    && Unreached(outs, count, showDupes, {}, i)
  }

  lemma TracksStep(outs: seq<Option<string>>, count: int, showDupes: bool, i: nat,
                   skipped: int, written: seq<string>, seen: set<string>,
                   skipped': int, written': seq<string>, seen': set<string>)
    requires i < |outs|
    requires Tracks(outs, count, showDupes, i, skipped, written, seen)
    requires var added := Fresh(outs[i], seen, showDupes);
      && skipped' == (if added == [] then skipped + 1 else skipped)
      && written' == written + added
      && seen' == seen + (if showDupes then {} else Elems(added))
    ensures written' == Emitted(outs, i + 1, showDupes, {})
    ensures seen' == SeenAfter(outs, i + 1, showDupes, {})
    ensures i + 1 - skipped' == count ==> StopsAt(outs, count, showDupes, {}, i + 1)
    ensures i + 1 - skipped' != count ==> Tracks(outs, count, showDupes, i + 1, skipped', written', seen')
  {
    var added := Fresh(outs[i], seen, showDupes);
    EmittedStep(outs, i, showDupes, {}, written, seen, added);
    if i + 1 - skipped' != count {
      UnreachedStep(outs, count, showDupes, {}, i);
    }
  }

  lemma OutcomesExist(events: seq<Event>, limit: int) returns (outs: seq<Option<string>>)
    ensures OutcomesOf(events, limit, outs)
  {
    outs := seq(|events|, i requires 0 <= i < |events| => LineOf(events[i], limit));
  }

  // ---------------------------------------------------------------------
  // Duplicates

  /** Squashing keeps exactly the lines not seen before. */
  lemma {:induction false} DedupElems(lines: seq<string>, seen: set<string>)
    ensures Elems(Dedup(lines, seen)) == Elems(lines) - seen
    decreases |lines|
  {
    if lines != [] {
      var x := lines[0];
      var rest := lines[1..];
      assert lines == [x] + rest;
      ElemsConcat([x], rest);
      if x in seen {
        DedupElems(rest, seen);
      } else {
        DedupElems(rest, seen + {x});
        ElemsConcat([x], Dedup(rest, seen + {x}));
      }
    }
  }

  /** Squashing writes no line twice and no line already seen. */
  lemma {:induction false} DedupFresh(lines: seq<string>, seen: set<string>)
    ensures Distinct(Dedup(lines, seen))
    ensures forall i :: 0 <= i < |Dedup(lines, seen)| ==> Dedup(lines, seen)[i] !in seen
    decreases |lines|
  {
    if lines != [] {
      var x := lines[0];
      if x in seen {
        DedupFresh(lines[1..], seen);
      } else {
        DedupFresh(lines[1..], seen + {x});
      }
    }
  }

  /** Squashing one more line: it is kept exactly when it is new. */
  lemma {:induction false} DedupSnoc(lines: seq<string>, l: string, seen: set<string>)
    ensures Dedup(lines + [l], seen) == Dedup(lines, seen) + (if l in seen || l in lines then [] else [l])
    decreases |lines|
  {
    if lines == [] {
      assert [] + [l] == [l];
    } else {
      var x := lines[0];
      var rest := lines[1..];
      assert (lines + [l])[0] == x;
      assert (lines + [l])[1..] == rest + [l];
      assert l in lines <==> l == x || l in rest by {
        assert lines == [x] + rest;
      }
      if x in seen {
        DedupSnoc(rest, l, seen);
      } else {
        DedupSnoc(rest, l, seen + {x});
      }
    }
  }

  /** Without `-d`, the output is each line of the events at its first
      occurrence, leaving out lines seen before; it holds no duplicate,
      and every line of the events not seen before appears in it. */
  lemma {:induction false} SquashedIsDedup(outs: seq<Option<string>>, n: nat, seen: set<string>)
    requires n <= |outs|
    ensures Emitted(outs, n, false, seen) == Dedup(Lines(outs, n), seen)
    ensures Distinct(Emitted(outs, n, false, seen))
    ensures Elems(Emitted(outs, n, false, seen)) == Elems(Lines(outs, n)) - seen
    decreases n
  {
    if n > 0 {
      SquashedIsDedup(outs, n - 1, seen);
      var prev := Lines(outs, n - 1);
      DedupElems(prev, seen);
      match outs[n - 1]
      case None =>
      case Some(l) =>
        assert l in Elems(prev) <==> l in prev;
        DedupSnoc(prev, l, seen);
    }
    DedupElems(Lines(outs, n), seen);
    DedupFresh(Lines(outs, n), seen);
  }

  /** With `-d`, every line of the events is written, in order. */
  lemma {:induction false} ShownIsLines(outs: seq<Option<string>>, n: nat, seen: set<string>)
    requires n <= |outs|
    ensures Emitted(outs, n, true, seen) == Lines(outs, n)
    decreases n
  {
    if n > 0 {
      ShownIsLines(outs, n - 1, seen);
    }
  }

  // ---------------------------------------------------------------------
  // Where the loop stops

  /** Each event writes at most one line. */
  lemma EmittedGrowth(outs: seq<Option<string>>, n: nat, showDupes: bool, seen: set<string>)
    requires n < |outs|
    ensures |Emitted(outs, n, showDupes, seen)| <= |Emitted(outs, n + 1, showDupes, seen)|
    ensures |Emitted(outs, n + 1, showDupes, seen)| <= |Emitted(outs, n, showDupes, seen)| + 1
  {
  }

  /** Before the loop reaches a positive count, fewer lines than the count
      were written: the number of lines climbs by at most one per event. */
  lemma {:induction false} BelowCount(outs: seq<Option<string>>, count: int, showDupes: bool,
                                      seen: set<string>, n: nat)
    requires 0 < count && n <= |outs|
    requires Unreached(outs, count, showDupes, seen, n)
    ensures |Emitted(outs, n, showDupes, seen)| < count
    decreases n
  {
    if n > 0 {
      BelowCount(outs, count, showDupes, seen, n - 1);
      EmittedGrowth(outs, n - 1, showDupes, seen);
    }
  }

  /** With a positive `-m`, the loop writes at most that many lines. */
  lemma AtMostCount(outs: seq<Option<string>>, count: int, showDupes: bool, seen: set<string>, n: nat)
    requires 0 < count
    requires StopsAt(outs, count, showDupes, seen, n)
    ensures |Emitted(outs, n, showDupes, seen)| <= count
  {
    if n > 0 {
      BelowCount(outs, count, showDupes, seen, n - 1);
      EmittedGrowth(outs, n - 1, showDupes, seen);
    }
  }

  /** When the events hold enough new lines, exactly `count` are written. */
  lemma ReachesCount(outs: seq<Option<string>>, count: int, showDupes: bool, seen: set<string>, n: nat)
    requires 0 < count <= |Emitted(outs, |outs|, showDupes, seen)|
    requires StopsAt(outs, count, showDupes, seen, n)
    ensures |Emitted(outs, n, showDupes, seen)| == count
  {
    AtMostCount(outs, count, showDupes, seen, n);
  }

  /** The stopping point is determined by the events and the count. */
  lemma StopsAtUnique(outs: seq<Option<string>>, count: int, showDupes: bool, seen: set<string>,
                      m: nat, n: nat)
    requires StopsAt(outs, count, showDupes, seen, m)
    requires StopsAt(outs, count, showDupes, seen, n)
    ensures m == n
  {
  }

  /** A negative count is never reached: every event is summarised. */
  lemma NegativeCount(outs: seq<Option<string>>, count: int, showDupes: bool, seen: set<string>, n: nat)
    requires count < 0
    requires StopsAt(outs, count, showDupes, seen, n)
    ensures n == |outs|
  {
  }

  /** Once the first event has written its line, at least one line has
      been written. */
  lemma {:induction false} FirstLineStays(outs: seq<Option<string>>, showDupes: bool, seen: set<string>, n: nat)
    requires 0 < n <= |outs|
    requires Fresh(outs[0], seen, showDupes) != []
    ensures |Emitted(outs, n, showDupes, seen)| >= 1
    decreases n
  {
    if n > 1 {
      FirstLineStays(outs, showDupes, seen, n - 1);
      EmittedGrowth(outs, n - 1, showDupes, seen);
    }
  }

  /** The default `-m 0` quirk, first half: the count of written lines
      after an event is compared with 0, so a first event that writes
      nothing (a skipped kind or a duplicate) ends the loop at once. */
  lemma ZeroCountFirstSilent(outs: seq<Option<string>>, showDupes: bool, seen: set<string>)
    requires 0 < |outs|
    requires Fresh(outs[0], seen, showDupes) == []
    ensures StopsAt(outs, 0, showDupes, seen, 1)
    ensures Emitted(outs, 1, showDupes, seen) == []
  {
  }

  /** Second half: once the first event wrote its line, 0 is never
      reached again and every event is summarised. */
  lemma ZeroCountFirstWritten(outs: seq<Option<string>>, showDupes: bool, seen: set<string>, n: nat)
    requires 0 < |outs|
    requires Fresh(outs[0], seen, showDupes) != []
    requires StopsAt(outs, 0, showDupes, seen, n)
    ensures n == |outs|
  {
    if 0 < n {
      FirstLineStays(outs, showDupes, seen, n);
    }
  }

  /** Everything a run of the loop writes, from a fresh start: the lines
      of the events it summarised, squashed unless `-d`; with a positive
      count no more than that many, and exactly that many when the events
      have enough; with a negative count every event; with the default 0,
      one event when the first writes nothing, and otherwise every event. */
  lemma RunWrites(outs: seq<Option<string>>, count: int, showDupes: bool, n: nat)
    requires StopsAt(outs, count, showDupes, {}, n)
    ensures Emitted(outs, n, showDupes, {}) ==
      if showDupes then Lines(outs, n) else Dedup(Lines(outs, n), {})
    ensures !showDupes ==> Distinct(Emitted(outs, n, showDupes, {}))
    ensures 0 < count ==> |Emitted(outs, n, showDupes, {})| <= count
    ensures 0 < count <= |Emitted(outs, |outs|, showDupes, {})| ==> |Emitted(outs, n, showDupes, {})| == count
    ensures count < 0 ==> n == |outs|
    ensures count == 0 && 0 < |outs| ==>
      n == if Fresh(outs[0], {}, showDupes) == [] then 1 else |outs|
  {
    if showDupes {
      ShownIsLines(outs, n, {});
    } else {
      SquashedIsDedup(outs, n, {});
    }
    if 0 < count {
      AtMostCount(outs, count, showDupes, {}, n);
    }
    if count == 0 && 0 < |outs| {
      if Fresh(outs[0], {}, showDupes) == [] {
        ZeroCountFirstSilent(outs, showDupes, {});
        StopsAtUnique(outs, 0, showDupes, {}, 1, n);
      } else {
        ZeroCountFirstWritten(outs, showDupes, {}, n);
      }
    }
  }
}

/** The state of one run of main.go: the output written so far, the
    `nodupes` set, and the loop that feeds `summarize` one event at a time. */
module Monitor {
  import opened Events
  import opened Shaping
  import opened Runs


  class Monitor {
    /** The lines written to the output, in order. */
    var written: seq<string>
    /** `nodupes`: the lines written so far when duplicates are squashed. */
    var seen: set<string>
    /** `-c`: cut lines after this many characters; 0 or less for none. */
    const limit: int
    /** `-d`: write duplicate lines too. */
    const showDupes: bool

    /** Duplicates are squashed exactly when `seen` records the output;
        then no line is written twice. */
    ghost predicate Valid()
      reads this
    {
      if showDupes then seen == {} else Distinct(written) && seen == Elems(written)
    }

    constructor (limit: int, showDupes: bool)
      ensures Valid()
      ensures this.limit == limit && this.showDupes == showDupes
      ensures written == [] && seen == {}
    {
      this.limit := limit;
      this.showDupes := showDupes;
      written := [];
      seen := {};
    }

    /** `format`: collapse, cut, then write unless the line is a duplicate
        that is to be squashed; returns whether it was squashed. */
    method Format(raw: string) returns (dupe: bool)
      requires Valid()
      modifies this
      ensures Valid()
      ensures var added := Fresh(Some(Shape(raw, limit)), old(seen), showDupes);
        && dupe == (added == [])
        && written == old(written) + added
        && seen == old(seen) + (if showDupes then {} else {Shape(raw, limit)})
    {
      var f := Collapse(raw);
      if limit > 0 && limit < |f| {
        f := f[..limit];
      }
      if showDupes {
        written := written + [f];
        return false;
      }
      if f !in seen {
        written := written + [f];
        seen := seen + {f};
      } else {
        return true;
      }
      return false;
    }

    /** `summarize`: pick the template of the event and format it, or drop
        an event of a skipped kind; returns whether nothing was written. */
    method Summarize(e: Event) returns (skipped: bool)
      requires Valid()
      modifies this
      ensures Valid()
      ensures var added := Fresh(LineOf(e, limit), old(seen), showDupes);
        && skipped == (added == [])
        && written == old(written) + added
        && seen == old(seen) + (if showDupes then {} else Elems(added))
    {
      match Classify(e)
      case Case(t) =>
        skipped := Format(Render(t, e));
      case Default =>
        var k := 0;
        while k < |SkipEvents|
          invariant 0 <= k <= |SkipEvents|
          invariant forall j :: 0 <= j < k ==> SkipEvents[j] != e.kind
        {
          if SkipEvents[k] == e.kind {
            return true;
          }
          k := k + 1;
        }
        skipped := Format(Render(Fallback, e));
    }

    /** One turn of the loop of `main`: `summarize` on the event at
        position `i` of the received list. */
    method SummarizeNth(events: seq<Event>, i: nat, ghost outs: seq<Option<string>>) returns (skipped: bool)
      requires i < |events| && OutcomesOf(events, limit, outs) && Valid()
      modifies this
      ensures Valid()
      ensures var added := Fresh(outs[i], old(seen), showDupes);
        && skipped == (added == [])
        && written == old(written) + added
        && seen == old(seen) + (if showDupes then {} else Elems(added))
    {
      skipped := Summarize(events[i]);
    }

    /** The loop of `main`: summarise the events in order, counting those
        that wrote nothing, and stop once the number of events that did
        write equals `count`. Returns how many events were consumed. */
    method Run(events: seq<Event>, count: int) returns (processed: nat, ghost outs: seq<Option<string>>)
      requires written == [] && seen == {}
      modifies this
      ensures Valid()
      ensures OutcomesOf(events, limit, outs)
      ensures && StopsAt(outs, count, showDupes, {}, processed)
        && written == Emitted(outs, processed, showDupes, {})
        && seen == SeenAfter(outs, processed, showDupes, {})
      ensures written == if showDupes then Lines(outs, processed) else Dedup(Lines(outs, processed), {})
      ensures 0 < count ==> |written| <= count
      ensures 0 < count <= |Emitted(outs, |outs|, showDupes, {})| ==> |written| == count
      ensures count < 0 ==> processed == |events|
      ensures count == 0 && 0 < |events| ==>
        processed == if Fresh(outs[0], {}, showDupes) == [] then 1 else |events|
    {
      outs := OutcomesExist(events, limit);
      var i := 0;
      var skipped := 0;
      while i < |events|
        invariant Valid()
        invariant Tracks(outs, count, showDupes, i, skipped, written, seen)
      {
        ghost var skipped0, written0, seen0 := skipped, written, seen;
        var s := SummarizeNth(events, i, outs);
        if s {
          skipped := skipped + 1;
        }
        TracksStep(outs, count, showDupes, i, skipped0, written0, seen0, skipped, written, seen);
        i := i + 1;
        if i - skipped == count {
          break;
        }
      }
      processed := i;
      RunWrites(outs, count, showDupes, processed);
    }
  }
}

/**
 * The import of a Chrome takeout: every entry of its "Browser History"
 * list, in order, recorded as a visit. `Replay` is the reference for the
 * state the whole import leaves behind; the chunks and commits of the
 * driver are in `History`.
 */
module Takeout {
  import opened Wrappers
  import opened Origins
  import opened Guid
  import opened Places

  /** One entry of the takeout's history: its title, its parsed URL and its time in microseconds. */
  datatype Entry = Entry(title: string, url: Url, timeUsec: nat)

  /** The title passed on for an entry: none for an empty title, the title otherwise. */
  function TitleOf(title: string): (r: Option<string>)
    ensures r.None? <==> |title| == 0
    ensures r.Some? ==> r.value == title
  {
    if |title| == 0 then None else Some(title)
  }

  /** One entry imported, with the GUID generated for its place should it need a new one. */
  function ImportEntry(t: Tables, e: Entry, guid: string): (Tables, Result<(), ImportError>)
  {
    RecordVisit(t, e.url, TitleOf(e.title), e.timeUsec, guid)
  }

  /** The GUIDs generated from the random bytes drawn for each entry, in order. */
  function GuidsOf(random: seq<GuidBytes>): (guids: seq<string>)
    ensures |guids| == |random|
    decreases |random|
  {
    if |random| == 0 then [] else GuidsOf(random[..|random| - 1]) + [GenerateGuid(random[|random| - 1])]
  }

  /** The i-th GUID is generated from the i-th random bytes. */
  lemma {:induction false} GuidsOfAt(random: seq<GuidBytes>, i: nat)
    requires i < |random|
    ensures GuidsOf(random)[i] == GenerateGuid(random[i])
    decreases |random|
  {
    var n := |random| - 1;
    if i < n {
      GuidsOfAt(random[..n], i);
    }
  }

  /** The tables after importing every entry of `es` in order, the i-th with `guids[i]`. */
  function Replay(t: Tables, es: seq<Entry>, guids: seq<string>): Tables
    requires |guids| == |es|
    decreases |es|
  {
    if |es| == 0 then t
    else
      var n := |es| - 1;
      ImportEntry(Replay(t, es[..n], guids[..n]), es[n], guids[n]).0
  }

  /** Importing one more entry replays the longer list. */
  lemma ReplaySnoc(t: Tables, es: seq<Entry>, guids: seq<string>, k: nat)
    requires |guids| == |es| && k < |es|
    ensures Replay(t, es[..k + 1], guids[..k + 1]) == ImportEntry(Replay(t, es[..k], guids[..k]), es[k], guids[k]).0
  {
    assert es[..k + 1][..k] == es[..k];
    assert guids[..k + 1][..k] == guids[..k];
  }

  /**
   * How far an import has got: the tables, the indices of the entries
   * whose failure was reported, and the index of the entry that panicked,
   * if one did.
   */
  datatype Progress = Progress(tables: Tables, failed: seq<nat>, panic: Option<nat>)

  /**
   * The entry at `index` imported after `p`: nothing more happens after a
   * panic; a URL without host panics; any other failure is reported and the
   * import goes on.
   */
  function Step(p: Progress, e: Entry, guid: string, index: nat): Progress
  {
    if p.panic.Some? then p
    else
      var (t2, r) := ImportEntry(p.tables, e, guid);
      if r == Failure(NoHost) then p.(panic := Some(index))
      else Progress(t2, p.failed + (if r.Failure? then [index] else []), None)
  }

  /** The progress of importing the entries of `es` in order, the i-th with `guids[i]`. */
  function Run(t: Tables, es: seq<Entry>, guids: seq<string>): Progress
    requires |guids| == |es|
    decreases |es|
  {
    if |es| == 0 then Progress(t, [], None)
    else
      var n := |es| - 1;
      Step(Run(t, es[..n], guids[..n]), es[n], guids[n], n)
  }

  /** Importing one more entry steps the run of the shorter list. */
  lemma RunSnoc(t: Tables, es: seq<Entry>, guids: seq<string>, k: nat)
    requires |guids| == |es| && k < |es|
    ensures Run(t, es[..k + 1], guids[..k + 1]) == Step(Run(t, es[..k], guids[..k]), es[k], guids[k], k)
  {
    assert es[..k + 1][..k] == es[..k];
    assert guids[..k + 1][..k] == guids[..k];
  }

  /** A step after a panic changes nothing, and a step that panics keeps the tables and reports of the progress before it. */
  lemma StepPanic(p: Progress, e: Entry, guid: string, index: nat)
    ensures p.panic.Some? ==> Step(p, e, guid, index) == p
    ensures p.panic.None? && Step(p, e, guid, index).panic.Some? ==> Step(p, e, guid, index) == p.(panic := Some(index))
  {
  }

  /** Once an entry has panicked, later entries change nothing. */
  lemma {:induction false} RunAfterPanic(t: Tables, es: seq<Entry>, guids: seq<string>, m: nat)
    requires |guids| == |es| && m <= |es| && Run(t, es[..m], guids[..m]).panic.Some?
    ensures Run(t, es, guids) == Run(t, es[..m], guids[..m])
    decreases |es| - m
  {
    if m < |es| {
      RunSnoc(t, es, guids, m);
      StepPanic(Run(t, es[..m], guids[..m]), es[m], guids[m], m);
      RunAfterPanic(t, es, guids, m + 1);
    } else {
      assert es[..m] == es && guids[..m] == guids;
    }
  }

  /** Every reported index is the index of an entry of the list. */
  lemma {:induction false} RunReportsEntries(t: Tables, es: seq<Entry>, guids: seq<string>)
    requires |guids| == |es|
    ensures forall i :: 0 <= i < |Run(t, es, guids).failed| ==> Run(t, es, guids).failed[i] < |es|
    decreases |es|
  {
    if |es| > 0 {
      RunReportsEntries(t, es[..|es| - 1], guids[..|es| - 1]);
    }
  }

  /** The run of the first `m` entries, if it panicked at `k`, is that of the first `k` entries stopped at entry `k`. */
  lemma {:induction false} RunPrefixStops(t: Tables, es: seq<Entry>, guids: seq<string>, m: nat)
    requires |guids| == |es| && m <= |es|
    ensures var p := Run(t, es[..m], guids[..m]);
            p.panic.Some? ==>
              var k := p.panic.value;
              && k < m
              && Run(t, es[..k], guids[..k]) == p.(panic := None)
              && Run(t, es[..k + 1], guids[..k + 1]) == p
    decreases m
  {
    if m > 0 {
      var n := m - 1;
      RunPrefixStops(t, es, guids, n);
      RunSnoc(t, es, guids, n);
      StepPanic(Run(t, es[..n], guids[..n]), es[n], guids[n], n);
    }
  }

  /**
   * A run that panics at entry `k` is the run of the first `k` entries,
   * which did not panic, stopped at entry `k`.
   */
  lemma RunStopsAtPanic(t: Tables, es: seq<Entry>, guids: seq<string>)
    requires |guids| == |es|
    ensures var p := Run(t, es, guids);
            p.panic.Some? ==>
              var k := p.panic.value;
              && k < |es|
              && Run(t, es[..k], guids[..k]) == p.(panic := None)
              && Run(t, es[..k + 1], guids[..k + 1]) == p
  {
    RunPrefixStops(t, es, guids, |es|);
    assert es[..|es|] == es && guids[..|es|] == guids;
  }

  /** A run without panic leaves the tables `Replay` describes. */
  lemma {:induction false} RunReplays(t: Tables, es: seq<Entry>, guids: seq<string>)
    requires |guids| == |es| && Run(t, es, guids).panic.None?
    ensures Run(t, es, guids).tables == Replay(t, es, guids)
    decreases |es|
  {
    if |es| > 0 {
      var n := |es| - 1;
      StepPanic(Run(t, es[..n], guids[..n]), es[n], guids[n], n);
      RunReplays(t, es[..n], guids[..n]);
    }
  }

  /**
   * A run that panics stops at an entry whose import meets a URL without
   * host, with the tables of the entries before it.
   */
  lemma RunPanics(t: Tables, es: seq<Entry>, guids: seq<string>)
    requires |guids| == |es| && Run(t, es, guids).panic.Some?
    ensures var p := Run(t, es, guids);
            var k := p.panic.value;
            && k < |es|
            && p.tables == Replay(t, es[..k], guids[..k])
            && ImportEntry(p.tables, es[k], guids[k]).1 == Failure(NoHost)
  {
    RunStopsAtPanic(t, es, guids);
    var k := Run(t, es, guids).panic.value;
    RunReplays(t, es[..k], guids[..k]);
    RunSnoc(t, es, guids, k);
  }

  /** Importing one entry keeps the tables valid and the visit dates unique. */
  lemma ImportEntryValid(t: Tables, e: Entry, guid: string)
    requires Valid(t) && UniqueVisitDates(t.visits)
    ensures Valid(ImportEntry(t, e, guid).0) && UniqueVisitDates(ImportEntry(t, e, guid).0.visits)
  {
    RecordVisitValid(t, e.url, TitleOf(e.title), e.timeUsec, guid);
    RecordVisitUniqueDates(t, e.url, TitleOf(e.title), e.timeUsec, guid);
  }

  /** Importing the first `m` entries keeps the tables valid and the visit dates unique. */
  lemma {:induction false} ReplayPrefixValid(t: Tables, es: seq<Entry>, guids: seq<string>, m: nat)
    requires |guids| == |es| && m <= |es| && Valid(t) && UniqueVisitDates(t.visits)
    ensures Valid(Replay(t, es[..m], guids[..m])) && UniqueVisitDates(Replay(t, es[..m], guids[..m]).visits)
    decreases m
  {
    if m > 0 {
      var n := m - 1;
      ReplayPrefixValid(t, es, guids, n);
      ReplaySnoc(t, es, guids, n);
      ImportEntryValid(Replay(t, es[..n], guids[..n]), es[n], guids[n]);
    }
  }

  /** Every import keeps the tables valid and the visit dates unique. */
  lemma ReplayValid(t: Tables, es: seq<Entry>, guids: seq<string>)
    requires |guids| == |es| && Valid(t) && UniqueVisitDates(t.visits)
    ensures Valid(Replay(t, es, guids)) && UniqueVisitDates(Replay(t, es, guids).visits)
  {
    ReplayPrefixValid(t, es, guids, |es|);
    assert es[..|es|] == es && guids[..|es|] == guids;
  }

  /** A place created for an entry has no title exactly when the entry's title is empty. */
  lemma ImportEntryTitle(t: Tables, e: Entry, guid: string)
    requires Valid(t) && !HasVisitAt(t.visits, e.timeUsec) && FindPlace(t.places, e.url.serialized).None?
    ensures var (t2, r) := ImportEntry(t, e, guid);
            r.Success? ==>
              var p := t2.places[|t.places|];
              && p.url == e.url.serialized
              && (p.title.None? <==> e.title == "")
              && (p.title.Some? ==> p.title.value == e.title)
  {
    RecordVisitNewPlace(t, e.url, TitleOf(e.title), e.timeUsec, guid);
  }

  // ------------------------------------------------------------- re-running

  /**
   * URLs are parsed from their text, so two entries with the same URL text
   * have the same parsed URL.
   */
  ghost predicate ParsedUrls(es: seq<Entry>)
  {
    forall i, j :: 0 <= i < |es| && 0 <= j < |es| && es[i].url.serialized == es[j].url.serialized ==> es[i].url == es[j].url
  }

  /**
   * An entry that importing again leaves alone: a visit at its time is
   * there, or its URL has no place and cannot get one.
   */
  ghost predicate Settled(t: Tables, e: Entry)
  {
    HasVisitAt(t.visits, e.timeUsec) || (FindPlace(t.places, e.url.serialized).None? && CreationFails(e.url))
  }

  /** Importing a settled entry changes nothing. */
  lemma SettledUnchanged(t: Tables, e: Entry, guid: string)
    requires Settled(t, e)
    ensures ImportEntry(t, e, guid).0 == t
  {
    if !HasVisitAt(t.visits, e.timeUsec) {
      ResolvePlaceErrors(t, e.url, TitleOf(e.title), guid);
    }
  }

  /** An entry stays settled whatever other entry with a consistently parsed URL is imported. */
  lemma SettledStays(t: Tables, e: Entry, other: Entry, guid: string)
    requires Settled(t, e)
    requires e.url.serialized == other.url.serialized ==> e.url == other.url
    ensures Settled(ImportEntry(t, other, guid).0, e)
  {
    var t2 := ImportEntry(t, other, guid).0;
    RecordVisitGrows(t, other.url, TitleOf(other.title), other.timeUsec, guid);
    if HasVisitAt(t.visits, e.timeUsec) {
      var i :| 0 <= i < |t.visits| && t.visits[i].visitDate == e.timeUsec;
      assert t2.visits[..|t.visits|][i] == t.visits[i];
    } else {
      forall i | 0 <= i < |t2.places| ensures t2.places[i].url != e.url.serialized {
        if i < |t.places| {
          assert t2.places[i].url == t.places[i].url;
        }
      }
    }
  }

  /** An entry is settled once it has been imported. */
  lemma ImportedSettled(t: Tables, e: Entry, guid: string)
    ensures Settled(ImportEntry(t, e, guid).0, e)
  {
    RecordVisitResult(t, e.url, TitleOf(e.title), e.timeUsec, guid);
    var (t2, r) := ImportEntry(t, e, guid);
    if r.Failure? {
      ResolvePlaceErrors(t, e.url, TitleOf(e.title), guid);
    }
  }

  /** Importing the next entry settles it and keeps the entries before it settled. */
  lemma SettledStep(t: Tables, es: seq<Entry>, n: nat, guid: string)
    requires n < |es| && ParsedUrls(es)
    requires forall j :: 0 <= j < n ==> Settled(t, es[j])
    ensures forall j :: 0 <= j <= n ==> Settled(ImportEntry(t, es[n], guid).0, es[j])
  {
    forall j | 0 <= j <= n ensures Settled(ImportEntry(t, es[n], guid).0, es[j]) {
      if j < n {
        SettledStays(t, es[j], es[n], guid);
      } else {
        ImportedSettled(t, es[n], guid);
      }
    }
  }

  /** After importing the first `m` entries, each of them is settled. */
  lemma {:induction false} ReplayPrefixSettles(t: Tables, es: seq<Entry>, guids: seq<string>, m: nat)
    requires |guids| == |es| && m <= |es| && ParsedUrls(es)
    ensures forall j :: 0 <= j < m ==> Settled(Replay(t, es[..m], guids[..m]), es[j])
    decreases m
  {
    if m > 0 {
      var n := m - 1;
      ReplayPrefixSettles(t, es, guids, n);
      ReplaySnoc(t, es, guids, n);
      SettledStep(Replay(t, es[..n], guids[..n]), es, n, guids[n]);
    }
  }

  /** After an import every entry is settled. */
  lemma ReplaySettles(t: Tables, es: seq<Entry>, guids: seq<string>)
    requires |guids| == |es| && ParsedUrls(es)
    ensures forall j :: 0 <= j < |es| ==> Settled(Replay(t, es, guids), es[j])
  {
    ReplayPrefixSettles(t, es, guids, |es|);
    assert es[..|es|] == es && guids[..|es|] == guids;
  }

  /** Importing entries that are all settled changes nothing. */
  lemma {:induction false} ReplaySettledUnchanged(t: Tables, es: seq<Entry>, guids: seq<string>)
    requires |guids| == |es|
    requires forall j :: 0 <= j < |es| ==> Settled(t, es[j])
    ensures Replay(t, es, guids) == t
    decreases |es|
  {
    if |es| > 0 {
      var n := |es| - 1;
      ReplaySettledUnchanged(t, es[..n], guids[..n]);
      SettledUnchanged(t, es[n], guids[n]);
    }
  }

  /**
   * Importing the same takeout twice is the same as importing it once:
   * the second run skips every entry whose time is recorded and fails again
   * on every entry it could not import, whatever GUIDs it draws.
   */
  lemma ReplayIdempotent(t: Tables, es: seq<Entry>, guids: seq<string>, again: seq<string>)
    requires |guids| == |es| && |again| == |es| && ParsedUrls(es)
    ensures Replay(Replay(t, es, guids), es, again) == Replay(t, es, guids)
  {
    ReplaySettles(t, es, guids);
    ReplaySettledUnchanged(Replay(t, es, guids), es, again);
  }

  // ------------------------------------------------------ re-running the program

  /**
   * An entry whose import would meet a URL without host: no visit at its
   * time, no place for its URL, and no host to create one.
   */
  predicate MeetsNoHost(t: Tables, e: Entry)
  {
    !HasVisitAt(t.visits, e.timeUsec) && FindPlace(t.places, e.url.serialized).None? && e.url.host.None?
  }

  /** Importing an entry panics exactly when it meets a URL without host. */
  lemma ImportEntryPanics(t: Tables, e: Entry, guid: string)
    ensures ImportEntry(t, e, guid).1 == Failure(NoHost) <==> MeetsNoHost(t, e)
  {
    RecordVisitResult(t, e.url, TitleOf(e.title), e.timeUsec, guid);
    ResolvePlaceResult(t, e.url, TitleOf(e.title), guid);
    if !HasVisitAt(t.visits, e.timeUsec) && FindPlace(t.places, e.url.serialized).None? {
      ResolvePlaceErrors(t, e.url, TitleOf(e.title), guid);
    }
  }

  /** An entry that does not meet a URL without host never will, whatever is imported. */
  lemma NoHostStaysAway(t: Tables, e: Entry, other: Entry, guid: string)
    requires !MeetsNoHost(t, e)
    ensures !MeetsNoHost(ImportEntry(t, other, guid).0, e)
  {
    var t2 := ImportEntry(t, other, guid).0;
    RecordVisitGrows(t, other.url, TitleOf(other.title), other.timeUsec, guid);
    if HasVisitAt(t.visits, e.timeUsec) {
      var i :| 0 <= i < |t.visits| && t.visits[i].visitDate == e.timeUsec;
      assert t2.visits[..|t.visits|][i] == t.visits[i];
    } else if FindPlace(t.places, e.url.serialized).Some? {
      var k := FindPlace(t.places, e.url.serialized).value;
      assert t2.places[k].url == e.url.serialized;
    }
  }

  /** After a run of the first `m` entries without panic, none of them meets a URL without host. */
  lemma {:induction false} RunPrefixAvoidsNoHost(t: Tables, es: seq<Entry>, guids: seq<string>, m: nat)
    requires |guids| == |es| && m <= |es| && Run(t, es[..m], guids[..m]).panic.None?
    ensures forall j :: 0 <= j < m ==> !MeetsNoHost(Run(t, es[..m], guids[..m]).tables, es[j])
    decreases m
  {
    if m > 0 {
      var n := m - 1;
      var p := Run(t, es[..n], guids[..n]);
      RunSnoc(t, es, guids, n);
      StepPanic(p, es[n], guids[n], n);
      RunPrefixAvoidsNoHost(t, es, guids, n);
      ImportEntryPanics(p.tables, es[n], guids[n]);
      forall j | 0 <= j <= n ensures !MeetsNoHost(ImportEntry(p.tables, es[n], guids[n]).0, es[j]) {
        NoHostStaysAway(p.tables, es[j], es[n], guids[n]);
      }
    }
  }

  /**
   * Running entries that are all settled, none meeting a URL without host,
   * leaves the tables as they are and does not panic.
   */
  lemma {:induction false} RunSettledUnchanged(t: Tables, es: seq<Entry>, guids: seq<string>)
    requires |guids| == |es|
    requires forall j :: 0 <= j < |es| ==> Settled(t, es[j]) && !MeetsNoHost(t, es[j])
    ensures Run(t, es, guids).panic.None? && Run(t, es, guids).tables == t
    decreases |es|
  {
    if |es| > 0 {
      var n := |es| - 1;
      RunSettledUnchanged(t, es[..n], guids[..n]);
      SettledUnchanged(t, es[n], guids[n]);
      ImportEntryPanics(t, es[n], guids[n]);
    }
  }

  /**
   * Running the program a second time on a takeout whose first import
   * completed completes too and changes nothing, whatever GUIDs it draws.
   */
  lemma RunIdempotent(t: Tables, es: seq<Entry>, guids: seq<string>, again: seq<string>)
    requires |guids| == |es| && |again| == |es| && ParsedUrls(es)
    requires Run(t, es, guids).panic.None?
    ensures var t1 := Run(t, es, guids).tables;
            Run(t1, es, again).panic.None? && Run(t1, es, again).tables == t1
  {
    assert es[..|es|] == es && guids[..|es|] == guids;
    RunPrefixAvoidsNoHost(t, es, guids, |es|);
    RunReplays(t, es, guids);
    ReplaySettles(t, es, guids);
    RunSettledUnchanged(Run(t, es, guids).tables, es, again);
  }

  /** The run the program performs, panicking or not, keeps the tables valid and the visit dates unique. */
  lemma RunValid(t: Tables, es: seq<Entry>, guids: seq<string>)
    requires |guids| == |es| && Valid(t) && UniqueVisitDates(t.visits)
    ensures Valid(Run(t, es, guids).tables) && UniqueVisitDates(Run(t, es, guids).tables.visits)
  {
    if Run(t, es, guids).panic.None? {
      RunReplays(t, es, guids);
      ReplayValid(t, es, guids);
    } else {
      RunPanics(t, es, guids);
      var k := Run(t, es, guids).panic.value;
      ReplayValid(t, es[..k], guids[..k]);
    }
  }
}

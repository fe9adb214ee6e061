/**
 * `BitbucketScanner`: the set of diff containers already handled, the
 * version cache, and the scan and per-file loops that drive extraction,
 * filtering, resolution and annotation.
 *
 * The page is modelled as values: a diff container is its id, the text of
 * its file header (if it has one) and its diff lines. Processing a file
 * returns the file's lines as the annotator leaves them.
 */
module Scanner {
  import opened Wrappers
  import opened JsText
  import opened LineMatch
  import opened PackageName
  import opened VersionCache
  import opened Annotation

  type ContainerId = nat

  datatype Container = Container(id: ContainerId, header: Option<string>, lines: seq<Line>)

  /** The header names one of the two manifest files. */
  predicate IsManifest(c: Container) {
    c.header.Some? && (Includes(c.header.value, "package.json") || Includes(c.header.value, "package-lock.json"))
  }

  // ---------------------------------------------------------------------
  // One diff line (the body of the `for...of` loop of `processPackageFile`).
  // ---------------------------------------------------------------------

  /** The cache after the line, the line as left by the annotator, and the names requested from the registry. */
  datatype StepResult = StepResult(cache: Cache, line: Line, fetched: seq<string>)

  /** A name is resolved only when it passes the grammar and is not a skip-listed key. */
  predicate IsResolvable(name: string) {
    IsValidPackageName(name) && !ShouldSkipPackage(name)
  }

  /** The body of the per-line loop, as a value: extract, filter, look up, annotate. */
  function LineStep(cache: Cache, line: Line, answer: FetchOutcome): StepResult
  {
    match ParseLine(LineText(line))
    case None => StepResult(cache, line, [])
    case Some(dep) =>
      if !IsResolvable(dep.name) then
        StepResult(cache, line, [])
      else
        var look := LookupLatest(cache, dep.name, answer);
        var line' :=
          if Truthy(look.latest) && look.latest.value != dep.version then
            Annotate(line, dep.version, look.latest.value)
          else
            line;
        StepResult(look.cache, line', if look.fetched then [dep.name] else [])
  }

  /**
   * What one line can do: its text never changes and a marked line is left
   * alone; a line without a pair, or with a rejected name, changes nothing
   * and sends nothing; at most one request is sent, for a resolvable name
   * that was not cached; no entry is overwritten and only a requested name
   * is added; a request the registry answers leaves its name cached; and a
   * marker is added only to an unmarked line with a pair, showing a
   * non-empty latest version that differs from the line's version; and
   * whenever the latest version of a resolvable pair is truthy and differs,
   * the line is annotated by the placement rule.
   */
  lemma LineStepFacts(cache: Cache, line: Line, answer: FetchOutcome)
    ensures LineStep(cache, line, answer).line.pieces == line.pieces
    ensures line.markers != [] ==> LineStep(cache, line, answer).line == line
    ensures ParseLine(LineText(line)).None? ==> LineStep(cache, line, answer) == StepResult(cache, line, [])
    ensures ParseLine(LineText(line)).Some? && !IsResolvable(ParseLine(LineText(line)).value.name) ==>
      LineStep(cache, line, answer) == StepResult(cache, line, [])
    ensures LineStep(cache, line, answer).fetched == [] ||
      (|LineStep(cache, line, answer).fetched| == 1 && LineStep(cache, line, answer).fetched[0] !in cache &&
       IsResolvable(LineStep(cache, line, answer).fetched[0]))
    ensures forall k :: k in cache ==> k in LineStep(cache, line, answer).cache && LineStep(cache, line, answer).cache[k] == cache[k]
    ensures forall k :: k in LineStep(cache, line, answer).cache && k !in cache ==> k in LineStep(cache, line, answer).fetched
    ensures answer.Fetched? ==> forall k :: k in LineStep(cache, line, answer).fetched ==> k in LineStep(cache, line, answer).cache
    ensures LineStep(cache, line, answer).line != line ==>
      && ParseLine(LineText(line)).Some? && line.markers == [] && |LineStep(cache, line, answer).line.markers| == 1
      && LineStep(cache, line, answer).line.markers[0].latest != ""
      && LineStep(cache, line, answer).line.markers[0].latest != ParseLine(LineText(line)).value.version
    // a resolvable pair is looked up, and the line is annotated exactly when
    // the latest version is truthy and differs from the line's version
    ensures ParseLine(LineText(line)).Some? && IsResolvable(ParseLine(LineText(line)).value.name) ==>
      var dep := ParseLine(LineText(line)).value;
      var look := LookupLatest(cache, dep.name, answer);
      && LineStep(cache, line, answer).cache == look.cache
      && (Truthy(look.latest) && look.latest.value != dep.version ==>
            LineStep(cache, line, answer).line == Annotate(line, dep.version, look.latest.value))
      && (!Truthy(look.latest) || look.latest.value == dep.version ==> LineStep(cache, line, answer).line == line)
  {
  }

  /**
   * An outdated dependency on an unmarked added line held in one text node,
   * such as `+    "lodash": "4.17.20",` when the registry reports `4.17.21`:
   * the uncached name is requested once and its answer cached, and the line
   * gets one marker showing the latest version. A line that goes on after
   * the version (here, with a comma) gets it at its end; a line that ends
   * with the quoted version gets it beside the text node holding it.
   */
  lemma OutdatedLineIsMarked(cache: Cache, lead: string, name: string, version: string, latest: string, rest: string)
    requires AllLead(lead) && name != [] && NoQuote(name) && version != [] && NoQuote(version)
    requires IsResolvable(name) && name !in cache && latest != "" && latest != version
    requires rest == [] || rest[|rest| - 1] == ','
    ensures LineStep(cache, Line([lead + "\"" + name + "\": \"" + version + "\"" + rest], []), Fetched(Some(latest))) ==
      StepResult(
        cache[name := Some(latest)],
        Line([lead + "\"" + name + "\": \"" + version + "\"" + rest], [Marker(latest, if rest == [] then InParentOf(0) else AtLineEnd)]),
        [name])
  {
    var t := lead + "\"" + name + "\": \"" + version + "\"" + rest;
    var line := Line([t], []);
    ConcatSingle(t);
    ParseDependencyLine(lead, name, version, rest);
    LineStepFacts(cache, line, Fetched(Some(latest)));
    DependencyLineText(lead, name, version, rest);
    AnnotateSinglePiece(t, version, latest);
  }

  /** The text of such a line holds its version, and ends with a quoted token exactly when nothing follows the version. */
  lemma DependencyLineText(lead: string, name: string, version: string, rest: string)
    requires version != [] && NoQuote(version)
    requires rest == [] || rest[|rest| - 1] == ','
    ensures Includes(lead + "\"" + name + "\": \"" + version + "\"" + rest, version)
    ensures EndsWithQuotedToken(lead + "\"" + name + "\": \"" + version + "\"" + rest) <==> rest == []
  {
    var t := lead + "\"" + name + "\": \"" + version + "\"" + rest;
    var c := |lead| + |name| + 5;
    var e2 := c + |version|;
    assert t[c..e2] == version;
    assert StartsWith(t[c..], version);
    EndsWithQuotedTokenIff(t);
    if rest == [] {
      assert AllSpace(t[e2 + 1..]);
      assert QuotedTokenAt(t, c - 1, e2);
    }
  }

  // ---------------------------------------------------------------------
  // One file: every line in order, the cache threaded through.
  // ---------------------------------------------------------------------

  datatype FileOutcome = FileOutcome(cache: Cache, lines: seq<Line>, fetched: seq<string>)

  /**
   * The lines of one file processed in order; `answers[i]` is what the
   * registry would answer if line `i` sends a request.
   */
  function ProcessLines(cache: Cache, lines: seq<Line>, answers: seq<FetchOutcome>): (r: FileOutcome)
    requires |answers| == |lines|
    decreases |lines|
  {
    if lines == [] then FileOutcome(cache, [], [])
    else
      var n := |lines| - 1;
      var prev := ProcessLines(cache, lines[..n], answers[..n]);
      var step := LineStep(prev.cache, lines[n], answers[n]);
      FileOutcome(step.cache, prev.lines + [step.line], prev.fetched + step.fetched)
  }

  /** Extending the processed prefix by one line is one more step. */
  lemma ProcessLinesSnoc(cache: Cache, lines: seq<Line>, answers: seq<FetchOutcome>, i: nat)
    requires |answers| == |lines| && i < |lines|
    ensures ProcessLines(cache, lines[..i + 1], answers[..i + 1]) ==
      FileOutcome(
        LineStep(ProcessLines(cache, lines[..i], answers[..i]).cache, lines[i], answers[i]).cache,
        ProcessLines(cache, lines[..i], answers[..i]).lines + [LineStep(ProcessLines(cache, lines[..i], answers[..i]).cache, lines[i], answers[i]).line],
        ProcessLines(cache, lines[..i], answers[..i]).fetched + LineStep(ProcessLines(cache, lines[..i], answers[..i]).cache, lines[i], answers[i]).fetched)
  {
    assert lines[..i + 1][..i] == lines[..i];
    assert answers[..i + 1][..i] == answers[..i];
  }

  lemma {:induction false} ProcessLinesLength(cache: Cache, lines: seq<Line>, answers: seq<FetchOutcome>)
    requires |answers| == |lines|
    ensures |ProcessLines(cache, lines, answers).lines| == |lines|
    decreases |lines|
  {
    if lines != [] {
      ProcessLinesLength(cache, lines[..|lines| - 1], answers[..|lines| - 1]);
    }
  }

  /**
   * Every line is visited: line `i` comes out as the per-line step leaves
   * it given the cache built by the lines before it, whether or not any
   * earlier lookup failed.
   */
  lemma {:induction false} ProcessLinesLineAt(cache: Cache, lines: seq<Line>, answers: seq<FetchOutcome>, i: nat)
    requires |answers| == |lines| && i < |lines|
    ensures i < |ProcessLines(cache, lines, answers).lines|
    ensures ProcessLines(cache, lines, answers).lines[i] ==
      LineStep(ProcessLines(cache, lines[..i], answers[..i]).cache, lines[i], answers[i]).line
    decreases |lines|
  {
    var n := |lines| - 1;
    ProcessLinesLength(cache, lines[..n], answers[..n]);
    var prev := ProcessLines(cache, lines[..n], answers[..n]);
    var last := LineStep(prev.cache, lines[n], answers[n]).line;
    assert ProcessLines(cache, lines, answers).lines == prev.lines + [last];
    if i < n {
      ProcessLinesLineAt(cache, lines[..n], answers[..n], i);
      assert lines[..n][..i] == lines[..i];
      assert answers[..n][..i] == answers[..i];
      assert lines[..n][i] == lines[i] && answers[..n][i] == answers[i];
      assert (prev.lines + [last])[i] == prev.lines[i];
    } else {
      assert lines[..i] == lines[..n] && answers[..i] == answers[..n];
    }
  }

  /** Every entry of `before` is in `after`, with the same value. */
  predicate KeepsEntries(before: Cache, after: Cache) {
    forall k :: k in before ==> k in after && after[k] == before[k]
  }

  /**
   * Resolution never overwrites an entry: the cache only gains keys, and each
   * key it gains was requested in this file. Every request is for a
   * resolvable name that was not in the cache when the file started.
   */
  lemma {:induction false} ProcessLinesCache(cache: Cache, lines: seq<Line>, answers: seq<FetchOutcome>)
    requires |answers| == |lines|
    ensures KeepsEntries(cache, ProcessLines(cache, lines, answers).cache)
    ensures forall k :: k in ProcessLines(cache, lines, answers).cache && k !in cache ==>
      k in ProcessLines(cache, lines, answers).fetched
    ensures forall k :: k in ProcessLines(cache, lines, answers).fetched ==> k !in cache && IsResolvable(k)
    decreases |lines|
  {
    if lines != [] {
      var n := |lines| - 1;
      ProcessLinesCache(cache, lines[..n], answers[..n]);
      LineStepFacts(ProcessLines(cache, lines[..n], answers[..n]).cache, lines[n], answers[n]);
    }
  }

  /**
   * With a healthy registry (no request fails), every requested name ends up
   * cached, so no name is requested twice within a file.
   */
  lemma {:induction false} ProcessLinesFetchesOnce(cache: Cache, lines: seq<Line>, answers: seq<FetchOutcome>)
    requires |answers| == |lines|
    requires forall i :: 0 <= i < |answers| ==> answers[i].Fetched?
    ensures forall k :: k in ProcessLines(cache, lines, answers).fetched ==> k in ProcessLines(cache, lines, answers).cache
    ensures forall i, j :: 0 <= i < j < |ProcessLines(cache, lines, answers).fetched| ==>
      ProcessLines(cache, lines, answers).fetched[i] != ProcessLines(cache, lines, answers).fetched[j]
    decreases |lines|
  {
    if lines != [] {
      var n := |lines| - 1;
      ProcessLinesFetchesOnce(cache, lines[..n], answers[..n]);
      var prev := ProcessLines(cache, lines[..n], answers[..n]);
      var step := LineStep(prev.cache, lines[n], answers[n]);
      var fetched := prev.fetched + step.fetched;
      LineStepFacts(prev.cache, lines[n], answers[n]);
      forall i, j | 0 <= i < j < |fetched| ensures fetched[i] != fetched[j] {
        if j >= |prev.fetched| {
          assert fetched[i] == prev.fetched[i];
          assert fetched[j] == step.fetched[0];
        } else {
          assert fetched[i] == prev.fetched[i] && fetched[j] == prev.fetched[j];
        }
      }
    }
  }

  predicate AtMostOneMarker(lines: seq<Line>) {
    forall i :: 0 <= i < |lines| ==> |lines[i].markers| <= 1
  }

  /** `after` is `before` with, at most, a marker added to some unmarked lines. */
  predicate OnlyMarksUnmarked(before: seq<Line>, after: seq<Line>) {
    && |after| == |before|
    && (forall i :: 0 <= i < |before| ==> after[i].pieces == before[i].pieces)
    && (forall i :: 0 <= i < |before| && before[i].markers != [] ==> after[i] == before[i])
    && (forall i :: 0 <= i < |before| && after[i] != before[i] ==> |after[i].markers| == 1)
  }

  /**
   * Processing a file never changes a line's text, leaves every already
   * marked line as it is, and gives an unmarked line at most one marker:
   * however often the same lines are scanned, each keeps at most one marker.
   */
  lemma {:induction false} ProcessLinesMarkers(cache: Cache, lines: seq<Line>, answers: seq<FetchOutcome>)
    requires |answers| == |lines|
    ensures OnlyMarksUnmarked(lines, ProcessLines(cache, lines, answers).lines)
    ensures AtMostOneMarker(lines) ==> AtMostOneMarker(ProcessLines(cache, lines, answers).lines)
    decreases |lines|
  {
    if lines != [] {
      var n := |lines| - 1;
      ProcessLinesMarkers(cache, lines[..n], answers[..n]);
      var prev := ProcessLines(cache, lines[..n], answers[..n]);
      LineStepFacts(prev.cache, lines[n], answers[n]);
      OnlyMarksUnmarkedSnoc(lines[..n], prev.lines, lines[n], LineStep(prev.cache, lines[n], answers[n]).line);
      assert lines[..n] + [lines[n]] == lines;
    }
    OnlyMarksKeepsAtMostOne(lines, ProcessLines(cache, lines, answers).lines);
  }

  lemma OnlyMarksUnmarkedSnoc(before: seq<Line>, after: seq<Line>, b: Line, a: Line)
    requires OnlyMarksUnmarked(before, after)
    requires a.pieces == b.pieces && (b.markers != [] ==> a == b) && (a != b ==> |a.markers| == 1)
    ensures OnlyMarksUnmarked(before + [b], after + [a])
  {
    var before', after' := before + [b], after + [a];
    forall i | 0 <= i < |before'|
      ensures after'[i].pieces == before'[i].pieces
      ensures before'[i].markers != [] ==> after'[i] == before'[i]
      ensures after'[i] != before'[i] ==> |after'[i].markers| == 1
    {
      if i < |before| {
        assert after'[i] == after[i] && before'[i] == before[i];
      }
    }
  }

  lemma OnlyMarksKeepsAtMostOne(before: seq<Line>, after: seq<Line>)
    requires OnlyMarksUnmarked(before, after)
    ensures AtMostOneMarker(before) ==> AtMostOneMarker(after)
  {
  }

  // ---------------------------------------------------------------------
  // One scan (`scanForPackageFiles`): which containers are newly processed.
  // ---------------------------------------------------------------------

  datatype ScanOutcome = ScanOutcome(processed: set<ContainerId>, started: seq<Container>)

  /** The `forEach` over the diff containers, in document order. */
  function Scan(processed: set<ContainerId>, diffs: seq<Container>): (r: ScanOutcome)
    decreases |diffs|
  {
    if diffs == [] then ScanOutcome(processed, [])
    else
      var n := |diffs| - 1;
      var prev := Scan(processed, diffs[..n]);
      var c := diffs[n];
      if c.id in prev.processed || !IsManifest(c) then prev
      else ScanOutcome(prev.processed + {c.id}, prev.started + [c])
  }

  function ManifestIds(diffs: seq<Container>): set<ContainerId> {
    set i | 0 <= i < |diffs| && IsManifest(diffs[i]) :: diffs[i].id
  }

  function Ids(cs: seq<Container>): set<ContainerId> {
    set i | 0 <= i < |cs| :: cs[i].id
  }

  /**
   * The processed set only grows, and grows by exactly the ids of the
   * manifest containers seen; a container without a manifest header is not
   * added, so the next scan examines it again.
   */
  lemma {:induction false} ScanProcessedSet(processed: set<ContainerId>, diffs: seq<Container>)
    ensures Scan(processed, diffs).processed == processed + ManifestIds(diffs)
    decreases |diffs|
  {
    if diffs != [] {
      var n := |diffs| - 1;
      ScanProcessedSet(processed, diffs[..n]);
      assert ManifestIds(diffs) == ManifestIds(diffs[..n]) + (if IsManifest(diffs[n]) then {diffs[n].id} else {}) by {
        forall x | x in ManifestIds(diffs) ensures x in ManifestIds(diffs[..n]) + (if IsManifest(diffs[n]) then {diffs[n].id} else {}) {
          var i :| 0 <= i < |diffs| && IsManifest(diffs[i]) && diffs[i].id == x;
          if i < n {
            assert diffs[..n][i] == diffs[i];
          }
        }
        forall x | x in ManifestIds(diffs[..n]) ensures x in ManifestIds(diffs) {
          var i :| 0 <= i < n && IsManifest(diffs[..n][i]) && diffs[..n][i].id == x;
          assert diffs[i] == diffs[..n][i];
        }
      }
    }
  }

  predicate DistinctIds(cs: seq<Container>) {
    forall i, j :: 0 <= i < j < |cs| ==> cs[i].id != cs[j].id
  }

  /**
   * The containers a scan starts processing: each is one of the scanned
   * containers, has a manifest header and was not processed before, no two
   * share an id, and the processed set grows by exactly their ids (so a
   * container already processed is skipped).
   */
  lemma {:induction false} ScanStartsNewManifests(processed: set<ContainerId>, diffs: seq<Container>)
    ensures forall c :: c in Scan(processed, diffs).started ==> c in diffs && IsManifest(c) && c.id !in processed
    ensures DistinctIds(Scan(processed, diffs).started)
    ensures Scan(processed, diffs).processed == processed + Ids(Scan(processed, diffs).started)
    decreases |diffs|
  {
    if diffs != [] {
      var n := |diffs| - 1;
      ScanStartsNewManifests(processed, diffs[..n]);
      var prev := Scan(processed, diffs[..n]);
      var c := diffs[n];
      if !(c.id in prev.processed || !IsManifest(c)) {
        var started := prev.started + [c];
        assert Ids(started) == Ids(prev.started) + {c.id} by {
          forall x | x in Ids(started) ensures x in Ids(prev.started) + {c.id} {
            var i :| 0 <= i < |started| && started[i].id == x;
            if i < |prev.started| {
              assert started[i] == prev.started[i];
            }
          }
          forall x | x in Ids(prev.started) ensures x in Ids(started) {
            var i :| 0 <= i < |prev.started| && prev.started[i].id == x;
            assert started[i] == prev.started[i];
          }
          assert started[|prev.started|] == c;
        }
        forall i, j | 0 <= i < j < |started| ensures started[i].id != started[j].id {
          if j == |prev.started| {
            assert started[i].id in Ids(prev.started) by {
              assert started[i] == prev.started[i];
            }
          } else {
            assert started[i] == prev.started[i] && started[j] == prev.started[j];
          }
        }
      }
    }
  }

  /** Every manifest container not processed before is started, or shares its id with one that is. */
  lemma {:induction false} ScanCoversNewManifests(processed: set<ContainerId>, diffs: seq<Container>, c: Container)
    requires c in diffs && IsManifest(c) && c.id !in processed
    ensures c.id in Ids(Scan(processed, diffs).started)
  {
    ScanProcessedSet(processed, diffs);
    ScanStartsNewManifests(processed, diffs);
    var i :| 0 <= i < |diffs| && diffs[i] == c;
    assert c.id in ManifestIds(diffs);
  }

  /** A scan over containers whose manifests are all processed already changes nothing and starts nothing. */
  lemma {:induction false} ScanCoveredIsNoop(processed: set<ContainerId>, diffs: seq<Container>)
    requires ManifestIds(diffs) <= processed
    ensures Scan(processed, diffs) == ScanOutcome(processed, [])
    decreases |diffs|
  {
    if diffs != [] {
      var n := |diffs| - 1;
      assert ManifestIds(diffs[..n]) <= ManifestIds(diffs) by {
        forall x | x in ManifestIds(diffs[..n]) ensures x in ManifestIds(diffs) {
          var i :| 0 <= i < n && IsManifest(diffs[..n][i]) && diffs[..n][i].id == x;
          assert diffs[i] == diffs[..n][i];
        }
      }
      ScanCoveredIsNoop(processed, diffs[..n]);
      if IsManifest(diffs[n]) {
        assert diffs[n].id in ManifestIds(diffs);
      }
    }
  }

  /**
   * A second scan of the same containers starts nothing: the scheduled
   * rescans after DOM changes never process a container twice.
   */
  lemma RescanStartsNothing(processed: set<ContainerId>, diffs: seq<Container>)
    ensures Scan(Scan(processed, diffs).processed, diffs) == ScanOutcome(Scan(processed, diffs).processed, [])
  {
    ScanProcessedSet(processed, diffs);
    ScanCoveredIsNoop(Scan(processed, diffs).processed, diffs);
  }

  // ---------------------------------------------------------------------
  // The scanner object.
  // ---------------------------------------------------------------------

  class BitbucketScanner {
    /** `processedElements`, by container id. */
    var processed: set<ContainerId>
    /** `cache`: package name to the `version` stored for it. */
    var cache: Cache

    /** Only names that passed the grammar and the skip list are ever cached. */
    ghost predicate Valid()
      reads this
    {
      forall k :: k in cache ==> IsResolvable(k)
    }

    constructor ()
      ensures Valid() && processed == {} && cache == map[]
    {
      processed := {};
      cache := map[];
    }

    /** `getLatestVersion`; `fetched` tells whether a request was sent to the registry. */
    method GetLatestVersion(name: string, answer: FetchOutcome) returns (latest: Option<string>, fetched: bool)
      modifies this`cache
      ensures Lookup(latest, cache, fetched) == LookupLatest(old(cache), name, answer)
    {
      if name in cache {
        latest := OrNull(cache[name]);
        fetched := false;
      } else {
        fetched := true;
        match answer
        case Failed =>
          latest := None;
        case Fetched(v) =>
          cache := cache[name := v];
          latest := v;
      }
    }

    /**
     * The body of the `for...of` loop of `processPackageFile`: extract the
     * pair, filter the name, look it up, and annotate when the latest
     * version is truthy and differs from the one in the line.
     */
    method ProcessLine(line: Line, answer: FetchOutcome) returns (next: Line, fetched: seq<string>)
      requires Valid()
      modifies this`cache
      ensures Valid()
      ensures StepResult(cache, next, fetched) == LineStep(old(cache), line, answer)
    {
      LineStepFacts(cache, line, answer);
      next, fetched := line, [];
      var packageMatch := ParseLine(LineText(line));
      if packageMatch.Some? && IsValidPackageName(packageMatch.value.name) {
        var packageName := packageMatch.value.name;
        var currentVersion := packageMatch.value.version;
        if !ShouldSkipPackage(packageName) {
          var latestVersion, didFetch := GetLatestVersion(packageName, answer);
          if Truthy(latestVersion) && latestVersion.value != currentVersion {
            next := AddVersionIndicator(line, currentVersion, latestVersion.value);
          }
          if didFetch {
            fetched := [packageName];
          }
        }
      }
    }

    /**
     * `processPackageFile`: the lines of one file in order, each awaiting
     * its own lookup. Returns the lines as annotated and the names requested.
     */
    method ProcessPackageFile(diff: Container, answers: seq<FetchOutcome>) returns (lines: seq<Line>, fetched: seq<string>)
      requires Valid()
      requires |answers| == |diff.lines|
      modifies this`cache
      ensures Valid()
      ensures FileOutcome(cache, lines, fetched) == ProcessLines(old(cache), diff.lines, answers)
    {
      lines, fetched := [], [];
      var i := 0;
      while i < |diff.lines|
        invariant 0 <= i <= |diff.lines|
        invariant Valid()
        invariant FileOutcome(cache, lines, fetched) == ProcessLines(old(cache), diff.lines[..i], answers[..i])
      {
        var next, step := ProcessLine(diff.lines[i], answers[i]);
        ProcessLinesSnoc(old(cache), diff.lines, answers, i);
        lines, fetched := lines + [next], fetched + step;
        i := i + 1;
      }
      assert diff.lines[..i] == diff.lines;
      assert answers[..i] == answers;
    }

    /**
     * `scanForPackageFiles`: marks every new manifest container processed and
     * returns those containers, in order, as the files whose processing it
     * starts. It does not wait for them.
     */
    method ScanForPackageFiles(diffs: seq<Container>) returns (started: seq<Container>)
      requires Valid()
      modifies this`processed
      ensures Valid()
      ensures ScanOutcome(processed, started) == Scan(old(processed), diffs)
      ensures processed == old(processed) + ManifestIds(diffs)
    {
      started := [];
      var i := 0;
      while i < |diffs|
        invariant 0 <= i <= |diffs|
        invariant ScanOutcome(processed, started) == Scan(old(processed), diffs[..i])
      {
        var diffElement := diffs[i];
        assert diffs[..i + 1][..i] == diffs[..i];
        if diffElement.id !in processed {
          match diffElement.header
          case None =>
          case Some(fileName) =>
            if Includes(fileName, "package.json") || Includes(fileName, "package-lock.json") {
              processed := processed + {diffElement.id};
              started := started + [diffElement];
            }
        }
        i := i + 1;
      }
      assert diffs[..i] == diffs;
      ScanProcessedSet(old(processed), diffs);
    }
  }
}

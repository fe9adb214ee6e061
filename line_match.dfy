/**
 * The dependency-line pattern `[+\s]*"([^"]+)":\s*"([^"]+)"`, applied with
 * `String.prototype.match` (no flags, so unanchored and first match only),
 * written as a hand-made parser over the line text.
 *
 * The parser `ParseLine` looks for the leftmost double quote at which the
 * quoted part of the pattern matches. `RegexMatchAt` states, position by
 * position, what a match of the whole pattern starting at `p` is; the lemmas
 * at the end prove that `ParseLine` yields exactly the capture groups of the
 * match with the smallest start, and nothing when no match exists.
 */
module LineMatch {
  import opened Wrappers
  import opened JsText

  /** The two capture groups: the package name and the version text. */
  datatype Dependency = Dependency(name: string, version: string)

  /** The class `[+\s]` that may precede the opening quote. */
  predicate IsLead(c: char) {
    c == '+' || IsSpace(c)
  }

  predicate AllLead(s: string) {
    forall i :: 0 <= i < |s| ==> IsLead(s[i])
  }

  /** Length of the greedy run `[^"]*` starting at `i`. */
  function QuoteFreeRun(s: string, i: nat): (k: nat)
    requires i <= |s|
    ensures i + k <= |s|
    ensures forall j :: i <= j < i + k ==> s[j] != '"'
    ensures i + k == |s| || s[i + k] == '"'
    decreases |s| - i
  {
    if i == |s| || s[i] == '"' then 0 else 1 + QuoteFreeRun(s, i + 1)
  }

  /** Length of the greedy run `\s*` starting at `i`. */
  function SpaceRun(s: string, i: nat): (k: nat)
    requires i <= |s|
    ensures i + k <= |s|
    ensures forall j :: i <= j < i + k ==> IsSpace(s[j])
    ensures i + k == |s| || !IsSpace(s[i + k])
    decreases |s| - i
  {
    if i == |s| || !IsSpace(s[i]) then 0 else 1 + SpaceRun(s, i + 1)
  }

  /**
   * The quoted part `"([^"]+)":\s*"([^"]+)"` tried at position `q`. Both
   * `[^"]+` and `\s*` are greedy, and backtracking into them cannot help
   * (the character that must follow each is never one they consume), so one
   * greedy pass decides the match.
   */
  function MatchAt(s: string, q: nat): (r: Option<Dependency>)
    ensures r.Some? ==> q < |s| && s[q] == '"'
    ensures r.Some? ==> r.value.name != [] && NoQuote(r.value.name)
    ensures r.Some? ==> r.value.version != [] && NoQuote(r.value.version)
  {
    if q < |s| && s[q] == '"' then
      var e1 := q + 1 + QuoteFreeRun(s, q + 1);
      if e1 > q + 1 && e1 + 1 < |s| && s[e1 + 1] == ':' then
        var w := e1 + 2 + SpaceRun(s, e1 + 2);
        if w < |s| && s[w] == '"' then
          var e2 := w + 1 + QuoteFreeRun(s, w + 1);
          if e2 > w + 1 && e2 < |s| then
            Some(Dependency(s[q + 1..e1], s[w + 1..e2]))
          else
            None
        else
          None
      else
        None
    else
      None
  }

  /** The leftmost position at or after `i` where `MatchAt` succeeds. */
  function FirstPairFrom(s: string, i: nat): (r: Option<nat>)
    requires i <= |s|
    ensures r.Some? ==> i <= r.value < |s| && MatchAt(s, r.value).Some?
    ensures forall j :: i <= j < |s| && (r.None? || j < r.value) ==> MatchAt(s, j).None?
    decreases |s| - i
  {
    if i == |s| then None
    else if MatchAt(s, i).Some? then Some(i)
    else FirstPairFrom(s, i + 1)
  }

  /** `lineText.match(pattern)`, reduced to its two capture groups. */
  function ParseLine(s: string): (r: Option<Dependency>)
    ensures r.Some? ==> r.value.name != [] && NoQuote(r.value.name)
    ensures r.Some? ==> r.value.version != [] && NoQuote(r.value.version)
  {
    match FirstPairFrom(s, 0)
    case None => None
    case Some(q) => MatchAt(s, q)
  }

  // ---------------------------------------------------------------------
  // Reference: what a match of the pattern is, stated position by position.
  // ---------------------------------------------------------------------

  /**
   * The text at `q` reads `"` name `":` ws `"` version `"`, with a non-empty,
   * quote-free name and version and an all-whitespace ws.
   */
  ghost predicate PairAt(s: string, q: nat, name: string, ws: string, version: string) {
    var a := q + 1;
    var e1 := a + |name|;
    var b := e1 + 2;
    var w := b + |ws|;
    var c := w + 1;
    var e2 := c + |version|;
    && name != [] && NoQuote(name) && AllSpace(ws) && version != [] && NoQuote(version)
    && e2 < |s|
    && s[q] == '"' && s[a..e1] == name && s[e1] == '"' && s[e1 + 1] == ':'
    && s[b..w] == ws && s[w] == '"' && s[c..e2] == version && s[e2] == '"'
  }

  /** The whole pattern matches at start `p` with capture groups `d`. */
  ghost predicate RegexMatchAt(s: string, p: nat, d: Dependency) {
    exists q: nat, ws :: p <= q <= |s| && AllLead(s[p..q]) && PairAt(s, q, d.name, ws, d.version)
  }

  lemma QuoteFreeRunIs(s: string, i: nat, k: nat)
    requires i + k < |s| && s[i + k] == '"'
    requires forall j :: i <= j < i + k ==> s[j] != '"'
    ensures QuoteFreeRun(s, i) == k
  {
  }

  lemma SpaceRunIs(s: string, i: nat, k: nat)
    requires i + k < |s| && !IsSpace(s[i + k])
    requires forall j :: i <= j < i + k ==> IsSpace(s[j])
    ensures SpaceRun(s, i) == k
  {
  }

  lemma SliceNoQuote(s: string, i: nat, j: nat)
    requires i <= j <= |s| && NoQuote(s[i..j])
    ensures forall k :: i <= k < j ==> s[k] != '"'
  {
    forall k | i <= k < j ensures s[k] != '"' {
      assert s[k] == s[i..j][k - i];
    }
  }

  lemma SliceAllSpace(s: string, i: nat, j: nat)
    requires i <= j <= |s| && AllSpace(s[i..j])
    ensures forall k :: i <= k < j ==> IsSpace(s[k])
  {
    forall k | i <= k < j ensures IsSpace(s[k]) {
      assert s[k] == s[i..j][k - i];
    }
  }

  lemma RunNoQuote(s: string, i: nat, j: nat)
    requires i <= j <= |s| && forall k :: i <= k < j ==> s[k] != '"'
    ensures NoQuote(s[i..j])
  {
  }

  lemma RunAllSpace(s: string, i: nat, j: nat)
    requires i <= j <= |s| && forall k :: i <= k < j ==> IsSpace(s[k])
    ensures AllSpace(s[i..j])
  {
  }

  /** Every success of `MatchAt` is a pair in the sense of `PairAt`. */
  lemma MatchAtSound(s: string, q: nat)
    requires MatchAt(s, q).Some?
    ensures exists ws :: PairAt(s, q, MatchAt(s, q).value.name, ws, MatchAt(s, q).value.version)
  {
    var e1 := q + 1 + QuoteFreeRun(s, q + 1);
    var w := e1 + 2 + SpaceRun(s, e1 + 2);
    var e2 := w + 1 + QuoteFreeRun(s, w + 1);
    assert MatchAt(s, q).value == Dependency(s[q + 1..e1], s[w + 1..e2]);
    PairAtFrom(s, q, e1, w, e2);
  }

  /** `PairAt` from the positions of the four quotes and the colon. */
  lemma PairAtFrom(s: string, q: nat, e1: nat, w: nat, e2: nat)
    requires q + 1 < e1 && e1 + 2 <= w && w + 1 < e2 < |s|
    requires s[q] == '"' && s[e1] == '"' && s[e1 + 1] == ':' && s[w] == '"' && s[e2] == '"'
    requires forall k :: q + 1 <= k < e1 ==> s[k] != '"'
    requires forall k :: e1 + 2 <= k < w ==> IsSpace(s[k])
    requires forall k :: w + 1 <= k < e2 ==> s[k] != '"'
    ensures PairAt(s, q, s[q + 1..e1], s[e1 + 2..w], s[w + 1..e2])
  {
    RunNoQuote(s, q + 1, e1);
    RunAllSpace(s, e1 + 2, w);
    RunNoQuote(s, w + 1, e2);
  }

  /** Every pair in the sense of `PairAt` is found by `MatchAt`, with the same groups. */
  lemma MatchAtComplete(s: string, q: nat, name: string, ws: string, version: string)
    requires PairAt(s, q, name, ws, version)
    ensures MatchAt(s, q) == Some(Dependency(name, version))
  {
    var a := q + 1;
    var e1 := a + |name|;
    var b := e1 + 2;
    var w := b + |ws|;
    var c := w + 1;
    var e2 := c + |version|;
    SliceNoQuote(s, a, e1);
    QuoteFreeRunIs(s, a, |name|);
    SliceAllSpace(s, b, w);
    SpaceRunIs(s, b, |ws|);
    SliceNoQuote(s, c, e2);
    QuoteFreeRunIs(s, c, |version|);
    MatchAtFrom(s, q, e1, w, e2);
  }

  /** `MatchAt` once the three greedy runs are known to end at `e1`, `w` and `e2`. */
  lemma MatchAtFrom(s: string, q: nat, e1: nat, w: nat, e2: nat)
    requires q + 1 < e1 && e1 + 2 <= w && w + 1 < e2 < |s|
    requires s[q] == '"' && s[e1 + 1] == ':' && s[w] == '"'
    requires QuoteFreeRun(s, q + 1) == e1 - q - 1
    requires SpaceRun(s, e1 + 2) == w - e1 - 2
    requires QuoteFreeRun(s, w + 1) == e2 - w - 1
    ensures MatchAt(s, q) == Some(Dependency(s[q + 1..e1], s[w + 1..e2]))
  {
  }

  /** Start of the run of `[+\s]` characters that ends just before `q`. */
  function LeadStart(s: string, q: nat): (p: nat)
    requires q <= |s|
    ensures p <= q && AllLead(s[p..q])
    ensures p == 0 || !IsLead(s[p - 1])
  {
    if q == 0 || !IsLead(s[q - 1]) then q
    else
      var p := LeadStart(s, q - 1);
      assert s[p..q] == s[p..q - 1] + [s[q - 1]];
      p
  }

  /** No run of `[+\s]` that reaches `q` or beyond starts before `LeadStart(s, q)`. */
  lemma LeadStartMinimal(s: string, q: nat, p': nat, q': nat)
    requires q <= q' <= |s| && p' <= q' && AllLead(s[p'..q'])
    ensures LeadStart(s, q) <= p'
  {
  }

  /** A line produces no dependency exactly when the pattern matches nowhere in it. */
  lemma ParseLineNoneIffNoMatch(s: string)
    ensures ParseLine(s).None? <==> forall p: nat, d :: !RegexMatchAt(s, p, d)
  {
    match FirstPairFrom(s, 0)
    case None =>
      forall p: nat, d | RegexMatchAt(s, p, d) ensures false {
        var q: nat, ws :| p <= q <= |s| && AllLead(s[p..q]) && PairAt(s, q, d.name, ws, d.version);
        MatchAtComplete(s, q, d.name, ws, d.version);
      }
    case Some(q) =>
      var d := MatchAt(s, q).value;
      MatchAtSound(s, q);
      var ws :| PairAt(s, q, d.name, ws, d.version);
      assert AllLead(s[q..q]);
      assert RegexMatchAt(s, q, d);
  }

  /**
   * When a line produces a dependency, the pattern matches with exactly those
   * capture groups at some start `p`, and no match of the pattern starts
   * before `p`: the groups are those `String.prototype.match` reports.
   */
  lemma ParseLineIsLeftmostMatch(s: string)
    requires ParseLine(s).Some?
    ensures exists p: nat ::
              && RegexMatchAt(s, p, ParseLine(s).value)
              && (forall p': nat, d' :: p' < p ==> !RegexMatchAt(s, p', d'))
  {
    var q := FirstPairFrom(s, 0).value;
    var d := MatchAt(s, q).value;
    MatchAtSound(s, q);
    var ws :| PairAt(s, q, d.name, ws, d.version);
    var p := LeadStart(s, q);
    assert RegexMatchAt(s, p, d);
    forall p': nat, d' | RegexMatchAt(s, p', d') ensures p <= p' {
      var q': nat, ws' :| p' <= q' <= |s| && AllLead(s[p'..q']) && PairAt(s, q', d'.name, ws', d'.version);
      MatchAtComplete(s, q', d'.name, ws', d'.version);
      LeadStartMinimal(s, q, p', q');
    }
  }

  /** The leftmost success after a quote-free stretch is the one `FirstPairFrom` finds. */
  lemma {:induction false} FirstPairFromRun(s: string, i: nat, q: nat)
    requires i <= q < |s| && MatchAt(s, q).Some?
    requires forall j :: i <= j < q ==> s[j] != '"'
    ensures FirstPairFrom(s, i) == Some(q)
    decreases q - i
  {
    if i < q {
      FirstPairFromRun(s, i + 1, q);
    }
  }

  /**
   * A dependency line as a diff shows it, `lead "name": "version"rest`, with
   * `lead` made of `+` and white space and anything after the closing quote,
   * yields exactly its name and version.
   */
  lemma ParseDependencyLine(lead: string, name: string, version: string, rest: string)
    requires AllLead(lead) && name != [] && NoQuote(name) && version != [] && NoQuote(version)
    ensures ParseLine(lead + "\"" + name + "\": \"" + version + "\"" + rest) == Some(Dependency(name, version))
  {
    var s := lead + "\"" + name + "\": \"" + version + "\"" + rest;
    var q := |lead|;
    var e1 := q + 1 + |name|;
    var c := e1 + 4;
    var e2 := c + |version|;
    assert s[q + 1..e1] == name;
    assert s[e1 + 2..e1 + 3] == " ";
    assert s[c..e2] == version;
    assert s[q] == '"' && s[e1] == '"' && s[e1 + 1] == ':' && s[e1 + 3] == '"' && s[e2] == '"';
    assert PairAt(s, q, name, " ", version);
    MatchAtComplete(s, q, name, " ", version);
    forall j | 0 <= j < q ensures s[j] != '"' {
      assert s[j] == lead[j];
    }
    FirstPairFromRun(s, 0, q);
  }
}

/**
 * The annotator, `addVersionIndicator`, over a value model of one diff line:
 * its text nodes in document order (`pieces`) and the version markers it
 * holds. A marker records the latest version it shows and where it was
 * appended. Either place lies inside the line element, so the test for an
 * existing marker (a `.npm-version-indicator` descendant) sees every marker
 * of the line.
 */
module Annotation {
  import opened Wrappers
  import opened JsText

  /** Where a marker was appended: to the parent element of text node `piece`, or to the line itself. */
  datatype Placement = InParentOf(piece: nat) | AtLineEnd

  datatype Marker = Marker(latest: string, at: Placement)

  datatype Line = Line(pieces: seq<string>, markers: seq<Marker>)

  /** The line's `textContent`. */
  function LineText(line: Line): string {
    Concat(line.pieces)
  }

  // ---------------------------------------------------------------------
  // The placement test `/"([^"]+)"\s*$/`: the text ends with a quoted token.
  // ---------------------------------------------------------------------

  /** `t` with its trailing `\s` characters removed. */
  function TrimEnd(t: string): (r: string)
    ensures |r| <= |t| && r == t[..|r|]
    ensures AllSpace(t[|r|..])
    ensures r == [] || !IsSpace(r[|r| - 1])
  {
    if t != [] && IsSpace(t[|t| - 1]) then
      var r := TrimEnd(t[..|t| - 1]);
      assert t[|r|..] == t[..|t| - 1][|r|..] + [t[|t| - 1]];
      r
    else
      t
  }

  /** Index of the last occurrence of `c` in `s`. */
  function LastIndexOf(s: string, c: char): (r: Option<nat>)
    ensures r.Some? ==> r.value < |s| && s[r.value] == c && forall j :: r.value < j < |s| ==> s[j] != c
    ensures r.None? ==> forall j :: 0 <= j < |s| ==> s[j] != c
  {
    if s == [] then None
    else if s[|s| - 1] == c then Some(|s| - 1)
    else LastIndexOf(s[..|s| - 1], c)
  }

  /**
   * `/"([^"]+)"\s*$/.test(t)`: after the trailing whitespace, the text ends
   * with a quote, and the quote before it leaves a non-empty, quote-free token.
   */
  predicate EndsWithQuotedToken(t: string) {
    var u := TrimEnd(t);
    && |u| >= 2 && u[|u| - 1] == '"'
    && match LastIndexOf(u[..|u| - 1], '"')
       case None => false
       case Some(j) => j < |u| - 2
  }

  /** The same test, stated on positions: an opening quote `j`, a closing quote `k`, whitespace after. */
  ghost predicate QuotedTokenAtEnd(t: string) {
    exists j: nat, k: nat :: QuotedTokenAt(t, j, k)
  }

  ghost predicate QuotedTokenAt(t: string, j: nat, k: nat) {
    && j + 1 < k < |t| && t[j] == '"' && t[k] == '"'
    && NoQuote(t[j + 1..k]) && AllSpace(t[k + 1..])
  }

  lemma TrimEndIs(t: string, k: nat)
    requires k < |t| && !IsSpace(t[k]) && AllSpace(t[k + 1..])
    ensures TrimEnd(t) == t[..k + 1]
  {
  }

  /** `EndsWithQuotedToken` is exactly the positional reading of the pattern. */
  lemma {:induction false} EndsWithQuotedTokenIff(t: string)
    ensures EndsWithQuotedToken(t) <==> QuotedTokenAtEnd(t)
  {
    var u := TrimEnd(t);
    if EndsWithQuotedToken(t) {
      var k := |u| - 1;
      var j := LastIndexOf(u[..k], '"').value;
      assert t[k + 1..] == t[|u|..];
      forall i | j + 1 <= i < k ensures t[i] != '"' {
        assert t[i] == u[..k][i];
      }
      assert QuotedTokenAt(t, j, k);
    }
    if QuotedTokenAtEnd(t) {
      var j: nat, k: nat :| QuotedTokenAt(t, j, k);
      TrimEndIs(t, k);
      assert u[..k] == t[..k];
      assert u[..k][j] == '"';
    }
  }

  // ---------------------------------------------------------------------
  // Placement and the annotation itself.
  // ---------------------------------------------------------------------

  /** The first text node whose content includes `v`. */
  function FirstPieceWith(pieces: seq<string>, v: string): (r: Option<nat>)
    ensures r.Some? ==> r.value < |pieces| && Includes(pieces[r.value], v)
    ensures forall j :: 0 <= j < |pieces| && (r.None? || j < r.value) ==> !Includes(pieces[j], v)
  {
    if pieces == [] then None
    else if Includes(pieces[0], v) then Some(0)
    else match FirstPieceWith(pieces[1..], v)
      case None => None
      case Some(k) => Some(k + 1)
  }

  /**
   * What `addVersionIndicator(line, name, currentVersion, latestVersion)`
   * leaves behind: nothing changes on a line that has a marker; a line whose
   * text ends with a quoted token gets the marker in the parent of the first
   * text node that includes the current version, or no marker at all when
   * none does; any other line gets it appended at its end.
   */
  function Annotate(line: Line, currentVersion: string, latestVersion: string): Line {
    if line.markers != [] then line
    else if EndsWithQuotedToken(LineText(line)) then
      match FirstPieceWith(line.pieces, currentVersion)
      case None => line
      case Some(k) => line.(markers := [Marker(latestVersion, InParentOf(k))])
    else
      line.(markers := [Marker(latestVersion, AtLineEnd)])
  }

  /** `addVersionIndicator`, with the loop over the line's text nodes that looks for the current version. */
  method AddVersionIndicator(line: Line, currentVersion: string, latestVersion: string) returns (r: Line)
    ensures r == Annotate(line, currentVersion, latestVersion)
  {
    if line.markers != [] {
      return line;
    }
    if EndsWithQuotedToken(LineText(line)) {
      r := line;
      var i := 0;
      while i < |line.pieces|
        invariant 0 <= i <= |line.pieces|
        invariant forall j :: 0 <= j < i ==> !Includes(line.pieces[j], currentVersion)
      {
        if Includes(line.pieces[i], currentVersion) {
          r := line.(markers := [Marker(latestVersion, InParentOf(i))]);
          return;
        }
        i := i + 1;
      }
    } else {
      r := line.(markers := [Marker(latestVersion, AtLineEnd)]);
    }
  }

  /**
   * The placement rule, stated against the positional reading of the
   * trailing-token pattern: the text is never changed, a marked line is left
   * alone, and an unmarked line ends with exactly one marker showing the
   * latest version, except when its text ends with a quoted token and no
   * text node includes the current version.
   */
  lemma AnnotatePlacement(line: Line, currentVersion: string, latestVersion: string)
    ensures var r := Annotate(line, currentVersion, latestVersion);
      && r.pieces == line.pieces
      && (line.markers != [] ==> r == line)
      && (line.markers == [] && !QuotedTokenAtEnd(LineText(line)) ==>
            r.markers == [Marker(latestVersion, AtLineEnd)])
      && (line.markers == [] && QuotedTokenAtEnd(LineText(line)) ==>
            && (r.markers == [] <==> forall j :: 0 <= j < |line.pieces| ==> !Includes(line.pieces[j], currentVersion))
            && (r.markers != [] ==>
                  && |r.markers| == 1 && r.markers[0].latest == latestVersion && r.markers[0].at.InParentOf?
                  && var k := r.markers[0].at.piece;
                     && k < |line.pieces| && Includes(line.pieces[k], currentVersion)
                     && forall j :: 0 <= j < k ==> !Includes(line.pieces[j], currentVersion)))
  {
    EndsWithQuotedTokenIff(LineText(line));
  }

  /** Annotating again, with any versions, changes nothing once a marker is there. */
  lemma AnnotateIdempotent(line: Line, currentVersion: string, latestVersion: string, current': string, latest': string)
    ensures var r := Annotate(line, currentVersion, latestVersion);
      && |r.markers| <= |line.markers| + 1
      && (|line.markers| <= 1 ==> |r.markers| <= 1)
      && (r.markers != [] ==> Annotate(r, current', latest') == r)
      && Annotate(r, currentVersion, latestVersion) == r
  {
  }

  /**
   * A line held in one text node that includes the current version always
   * gets its marker: beside that node when the text ends with a quoted
   * token, at the line end otherwise.
   */
  lemma AnnotateSinglePiece(t: string, currentVersion: string, latestVersion: string)
    requires Includes(t, currentVersion)
    ensures Annotate(Line([t], []), currentVersion, latestVersion) ==
      Line([t], [Marker(latestVersion, if EndsWithQuotedToken(t) then InParentOf(0) else AtLineEnd)])
  {
    ConcatSingle(t);
  }
}

/**
 * The line structure web.page.regexp scans: the fetched text cut at every '\n',
 * one trailing '\r' dropped from each piece a '\n' ends, and the first line the
 * matcher accepts.
 */
module LineScan {
  import opened Wrappers
  import opened CStrings

  /**
   * The pieces of `s` between its '\n' characters, in order. The last piece is the
   * text after the last '\n' (all of `s` when it has none) and may be empty.
   */
  function Segments(s: string): (r: seq<string>)
    ensures |r| > 0
    ensures forall i :: 0 <= i < |r| ==> '\n' !in r[i]
    decreases |s|
  {
    match Find(s, '\n')
    case None => [s]
    case Some(i) => [s[..i]] + Segments(s[i + 1..])
  }

  /** The pieces glued back together, with a '\n' between each two. */
  function Join(segs: seq<string>): string
    requires |segs| > 0
  {
    if |segs| == 1 then segs[0] else segs[0] + "\n" + Join(segs[1..])
  }

  /** Cutting at '\n' loses nothing: joining the pieces gives the text back. */
  lemma {:induction false} JoinSegments(s: string)
    ensures Join(Segments(s)) == s
    decreases |s|
  {
    match Find(s, '\n')
    case None =>
    case Some(i) =>
      JoinSegments(s[i + 1..]);
      assert s == s[..i] + "\n" + s[i + 1..];
  }

  /** Pieces without '\n' are recovered exactly from their join. */
  lemma {:induction false} SegmentsJoin(segs: seq<string>)
    requires |segs| > 0
    requires forall i :: 0 <= i < |segs| ==> '\n' !in segs[i]
    ensures Segments(Join(segs)) == segs
  {
    if |segs| > 1 {
      var s := Join(segs);
      var rest := Join(segs[1..]);
      assert s == segs[0] + "\n" + rest;
      assert s[..|segs[0]|] == segs[0];
      assert s[|segs[0]| + 1..] == rest;
      FindFirst(s, '\n', |segs[0]|);
      SegmentsJoin(segs[1..]);
    }
  }

  /** A line without its trailing '\r', when it has one; at most one is dropped. */
  function Chomp(seg: string): (r: string)
    ensures r <= seg && |seg| - 1 <= |r|
    ensures |r| < |seg| <==> |seg| > 0 && seg[|seg| - 1] == '\r'
  {
    if |seg| > 0 && seg[|seg| - 1] == '\r' then seg[..|seg| - 1] else seg
  }

  /**
   * The lines web.page.regexp hands to the matcher: every piece a '\n' ends loses
   * one trailing '\r'; the final piece, which no '\n' ends, keeps it.
   */
  function Lines(s: string): (r: seq<string>)
    ensures |r| > 0
    decreases |s|
  {
    match Find(s, '\n')
    case None => [s]
    case Some(i) => [Chomp(s[..i])] + Lines(s[i + 1..])
  }

  /**
   * The lines are the '\n'-separated pieces, each but the last without one
   * trailing '\r', and the last exactly as it is.
   */
  lemma {:induction false} LinesAreChompedSegments(s: string)
    ensures |Lines(s)| == |Segments(s)|
    ensures forall i :: 0 <= i < |Lines(s)| - 1 ==> Lines(s)[i] == Chomp(Segments(s)[i])
    ensures Lines(s)[|Lines(s)| - 1] == Segments(s)[|Segments(s)| - 1]
    decreases |s|
  {
    match Find(s, '\n')
    case None =>
    case Some(i) =>
      LinesAreChompedSegments(s[i + 1..]);
  }

  /** The first line the matcher accepts: its index and what the matcher made of it. */
  function FirstMatch(lines: seq<string>, matcher: string -> Option<string>): (r: Option<(nat, string)>)
    ensures r.Some? ==> r.value.0 < |lines| && matcher(lines[r.value.0]) == Some(r.value.1)
    ensures r.Some? ==> forall j :: 0 <= j < r.value.0 ==> matcher(lines[j]).None?
    ensures r.None? ==> forall j :: 0 <= j < |lines| ==> matcher(lines[j]).None?
  {
    if |lines| == 0 then None
    else match matcher(lines[0])
      case Some(x) => Some((0, x))
      case None =>
        match FirstMatch(lines[1..], matcher)
        case None => None
        case Some(m) => Some((m.0 + 1, m.1))
  }

  /**
   * The lines the scan hands to the matcher: up to and including the first one it
   * accepts, or all of them when it accepts none.
   */
  function Visited(lines: seq<string>, matcher: string -> Option<string>): (r: seq<string>)
    ensures r <= lines
    ensures forall j :: 0 <= j < |r| - 1 ==> matcher(r[j]).None?
    ensures r == lines || (|r| > 0 && matcher(r[|r| - 1]).Some?)
  {
    match FirstMatch(lines, matcher)
    case None => lines
    case Some(m) => lines[..m.0 + 1]
  }

  /** What the scan of `body` reports: the first result, or "" when no line yields one. */
  function ScanResult(body: string, matcher: string -> Option<string>): (r: string)
    ensures FirstMatch(Lines(body), matcher).None? ==> r == ""
    ensures forall k :: 0 <= k < |Lines(body)| && matcher(Lines(body)[k]).Some?
                        && (forall j :: 0 <= j < k ==> matcher(Lines(body)[j]).None?)
                        ==> r == matcher(Lines(body)[k]).value
  {
    match FirstMatch(Lines(body), matcher)
    case None => ""
    case Some(m) => m.1
  }

  /** The result of the scan depends only on the lines it visits. */
  lemma {:induction false} FirstMatchPrefix(lines: seq<string>, more: seq<string>, matcher: string -> Option<string>)
    requires FirstMatch(lines, matcher).Some?
    ensures FirstMatch(lines + more, matcher) == FirstMatch(lines, matcher)
  {
    if matcher(lines[0]).None? {
      assert (lines + more)[1..] == lines[1..] + more;
      FirstMatchPrefix(lines[1..], more, matcher);
    }
  }
}

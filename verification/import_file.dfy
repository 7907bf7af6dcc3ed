/** Reading an import file: the file is cut into lines at '\n', and each
    line contributes the target of its first markdown link, read with the
    pattern `\[[^\]]+\]\(([^\]]+)\)`, or nothing. */
module ImportFile {
  import opened Wrappers
  import Text

  /** The first position at or after `from` holding `c`, or `|s|`. */
  function FirstFrom(s: string, c: char, from: nat): (k: nat)
    requires from <= |s|
    ensures from <= k <= |s|
    ensures k < |s| ==> s[k] == c
    ensures forall m :: from <= m < k ==> s[m] != c
    decreases |s| - from
  {
    if from == |s| || s[from] == c then from else FirstFrom(s, c, from + 1)
  }

  /** `FirstFrom` is the only position with its two properties. */
  lemma {:induction false} FirstFromIs(s: string, c: char, from: nat, k: nat)
    requires from <= k <= |s|
    requires k < |s| ==> s[k] == c
    requires forall m :: from <= m < k ==> s[m] != c
    ensures FirstFrom(s, c, from) == k
    decreases k - from
  {
    if from < k {
      FirstFromIs(s, c, from + 1, k);
    }
  }

  /** The last position in `[lo, hi)` holding `c`, if any. */
  function LastBefore(s: string, c: char, lo: nat, hi: nat): (e: Option<nat>)
    requires hi <= |s|
    ensures e.Some? ==> lo <= e.value < hi && s[e.value] == c && forall m :: e.value < m < hi ==> s[m] != c
    ensures e.None? ==> forall m :: lo <= m < hi ==> s[m] != c
    decreases hi
  {
    if hi <= lo then None
    else if s[hi - 1] == c then Some(hi - 1)
    else LastBefore(s, c, lo, hi - 1)
  }

  /** A match of the link pattern starting at `i`: a bracket, a non-empty
      caption without ']', "](", a non-empty target without ']' running up
      to position `e`, and ')' at `e`. The target is `line[j + 2..e]`. */
  ghost predicate Matches(line: string, i: nat, j: nat, e: nat) {
    && i + 2 <= j && j + 3 <= e < |line|
    && line[i] == '['
    && (forall m :: i < m < j ==> line[m] != ']')
    && line[j] == ']' && line[j + 1] == '('
    && (forall m :: j + 2 <= m < e ==> line[m] != ']')
    && line[e] == ')'
  }

  /** How a backtracking matcher reads the pattern at `i`: the caption runs
      to the first ']', and the greedy target gives back characters until
      a ')' follows it, so the match ends at the last ')' before the next
      ']'. */
  function MatchSpan(line: string, i: nat): (r: Option<(nat, nat)>)
    requires i <= |line|
    ensures r.Some? ==> Matches(line, i, r.value.0, r.value.1)
  {
    if i < |line| && line[i] == '[' then
      var j := FirstFrom(line, ']', i + 1);
      if i + 2 <= j && j + 2 < |line| && line[j + 1] == '(' then
        var k := FirstFrom(line, ']', j + 2);
        match LastBefore(line, ')', j + 3, k)
        case Some(e) => Some((j, e))
        case None => None
      else None
    else None
  }

  /** The matcher finds a match at `i` whenever one exists, and of all the
      matches at `i` it takes the one with the longest target. */
  lemma {:induction false} MatchSpanGreedy(line: string, i: nat, j: nat, e: nat)
    requires i <= |line| && Matches(line, i, j, e)
    ensures MatchSpan(line, i).Some?
    ensures MatchSpan(line, i).value.0 == j && MatchSpan(line, i).value.1 >= e
  {
    var j' := FirstFrom(line, ']', i + 1);
    assert j' == j;
    var k := FirstFrom(line, ']', j + 2);
    assert e < k;
  }

  /** The target of the link at `i`, if the pattern matches there. */
  function MatchAt(line: string, i: nat): (r: Option<string>)
    requires i <= |line|
    ensures r.Some? <==> MatchSpan(line, i).Some?
    ensures r.Some? ==> r.value == line[MatchSpan(line, i).value.0 + 2..MatchSpan(line, i).value.1]
  {
    match MatchSpan(line, i)
    case Some((j, e)) => Some(line[j + 2..e])
    case None => None
  }

  /** The target of the leftmost match at or after `from`. */
  function FirstLink(line: string, from: nat): (r: Option<string>)
    requires from <= |line|
    decreases |line| - from
  {
    match MatchAt(line, from)
    case Some(u) => Some(u)
    case None => if from == |line| then None else FirstLink(line, from + 1)
  }

  /** `exec` of the pattern on a line: the first group of the leftmost match. */
  function Link(line: string): (r: Option<string>)
    ensures r.Some? ==> |r.value| >= 1 && ']' !in r.value
  {
    FirstLinkTarget(line, 0);
    FirstLink(line, 0)
  }

  /** A found target is non-empty and holds no ']'. */
  lemma {:induction false} FirstLinkTarget(line: string, from: nat)
    requires from <= |line|
    ensures FirstLink(line, from).Some? ==> |FirstLink(line, from).value| >= 1 && ']' !in FirstLink(line, from).value
    decreases |line| - from
  {
    match MatchSpan(line, from)
    case Some((j, e)) =>
      var u := line[j + 2..e];
      forall m | 0 <= m < |u| ensures u[m] != ']' { assert u[m] == line[j + 2 + m]; }
    case None =>
      if from < |line| { FirstLinkTarget(line, from + 1); }
  }

  /** `Link` agrees with the pattern: it finds a link exactly when the line
      holds a match, and then it is the longest target of the leftmost one. */
  lemma LinkIsLeftmost(line: string)
    ensures Link(line).Some? <==> exists i: nat, j: nat, e: nat :: Matches(line, i, j, e)
    ensures Link(line).Some? ==> exists i: nat, j: nat, e: nat ::
      && Matches(line, i, j, e) && Link(line).value == line[j + 2..e]
      && (forall i': nat, j': nat, e': nat :: Matches(line, i', j', e') ==> i <= i')
      && (forall j': nat, e': nat :: Matches(line, i, j', e') ==> e' <= e)
  {
    FirstLinkIsLeftmost(line, 0);
  }

  lemma {:induction false} FirstLinkIsLeftmost(line: string, from: nat)
    requires from <= |line|
    ensures FirstLink(line, from).Some? <==> exists i: nat, j: nat, e: nat :: from <= i && Matches(line, i, j, e)
    ensures FirstLink(line, from).Some? ==> exists i: nat, j: nat, e: nat ::
      && from <= i && Matches(line, i, j, e) && FirstLink(line, from).value == line[j + 2..e]
      && (forall i': nat, j': nat, e': nat :: from <= i' && Matches(line, i', j', e') ==> i <= i')
      && (forall j': nat, e': nat :: Matches(line, i, j', e') ==> e' <= e)
    decreases |line| - from
  {
    match MatchSpan(line, from)
    case Some((j, e)) =>
      forall j': nat, e': nat | Matches(line, from, j', e') ensures e' <= e {
        MatchSpanGreedy(line, from, j', e');
      }
    case None =>
      forall j: nat, e: nat | Matches(line, from, j, e) ensures false {
        MatchSpanGreedy(line, from, j, e);
      }
      if from < |line| {
        FirstLinkIsLeftmost(line, from + 1);
        forall i: nat, j: nat, e: nat | from <= i && Matches(line, i, j, e) ensures from + 1 <= i {
          if i == from { MatchSpanGreedy(line, from, j, e); }
        }
      } else {
        forall i: nat, j: nat, e: nat | from <= i && Matches(line, i, j, e) ensures false { }
      }
  }

  /** The targets the `reduce` collects over the lines, in line order. */
  function LinkTargets(lines: seq<string>): seq<string>
  {
    if |lines| == 0 then []
    else
      match Link(lines[0])
      case Some(u) => [u] + LinkTargets(lines[1..])
      case None => LinkTargets(lines[1..])
  }

  /** One more line adds its link, if it has one, at the end. */
  lemma {:induction false} LinkTargetsSnoc(lines: seq<string>, line: string)
    ensures LinkTargets(lines + [line]) == LinkTargets(lines) + (if Link(line).Some? then [Link(line).value] else [])
  {
    if |lines| == 0 {
      assert lines + [line] == [line];
    } else {
      assert (lines + [line])[1..] == lines[1..] + [line];
      LinkTargetsSnoc(lines[1..], line);
    }
  }

  /** Every collected target is the link of some line, so it is non-empty
      and holds no ']', and there are no more targets than lines. */
  lemma {:induction false} LinkTargetsBound(lines: seq<string>)
    ensures |LinkTargets(lines)| <= |lines|
    ensures forall k :: 0 <= k < |LinkTargets(lines)| ==>
      exists n :: 0 <= n < |lines| && Link(lines[n]) == Some(LinkTargets(lines)[k])
  {
    if |lines| > 0 {
      LinkTargetsBound(lines[1..]);
      var rest := LinkTargets(lines[1..]);
      forall k | 0 <= k < |rest| ensures exists n :: 0 <= n < |lines| && Link(lines[n]) == Some(rest[k]) {
        var n :| 0 <= n < |lines[1..]| && Link(lines[1..][n]) == Some(rest[k]);
        assert lines[n + 1] == lines[1..][n];
      }
    }
  }

  /** The whole import: the URLs of the file, one per line that holds a
      link, in the order of the lines. */
  method ExtractUrls(content: string) returns (urls: seq<string>)
    ensures urls == LinkTargets(Text.Split(content, '\n'))
    ensures |urls| <= Text.Count(content, '\n') + 1
    ensures forall k :: 0 <= k < |urls| ==> |urls[k]| >= 1 && ']' !in urls[k]
  {
    var lines := Text.Split(content, '\n');
    urls := [];
    var n := 0;
    while n < |lines|
      invariant 0 <= n <= |lines|
      invariant urls == LinkTargets(lines[..n])
    {
      LinkTargetsSnoc(lines[..n], lines[n]);
      assert lines[..n + 1] == lines[..n] + [lines[n]];
      var found := Link(lines[n]);
      if found.Some? {
        urls := urls + [found.value];
      }
      n := n + 1;
    }
    assert lines[..n] == lines;
    LinkTargetsBound(lines);
    Text.SplitCount(content, '\n');
    forall k | 0 <= k < |urls| ensures |urls[k]| >= 1 && ']' !in urls[k] {
      var m :| 0 <= m < |lines| && Link(lines[m]) == Some(urls[k]);
    }
  }

  /** A line that starts with a well-formed link `[caption](target)` yields
      that target, whatever links follow, provided no ')' comes before the
      next ']' (the greedy target would run on to it). */
  lemma LeadingLink(caption: string, target: string, rest: string)
    requires |caption| >= 1 && ']' !in caption
    requires |target| >= 1 && ']' !in target && ')' !in target
    requires ')' !in rest[..FirstFrom(rest, ']', 0)]
    ensures Link("[" + caption + "](" + target + ")" + rest) == Some(target)
  {
    var line := "[" + caption + "](" + target + ")" + rest;
    var j := |caption| + 1;
    var e := j + 2 + |target|;
    LeadingLinkLayout(caption, target, rest);
    var k := FirstFrom(rest, ']', 0);
    assert forall m :: 0 <= m < k ==> rest[m] == rest[..k][m];
    FirstFromIs(line, ']', j + 2, e + 1 + k);
    LinkAtStart(line, j, e);
  }

  /** Where the parts of `[caption](target)rest` sit in the line. */
  lemma LeadingLinkLayout(caption: string, target: string, rest: string)
    requires |caption| >= 1 && ']' !in caption
    requires |target| >= 1 && ']' !in target && ')' !in target
    ensures var line := "[" + caption + "](" + target + ")" + rest;
            var j := |caption| + 1;
            var e := j + 2 + |target|;
            && Matches(line, 0, j, e)
            && line[j + 2..e] == target
            && (forall m :: j + 2 <= m <= e ==> line[m] != ']')
            && (forall m :: e < m < |line| ==> line[m] == rest[m - e - 1])
  {
    var line := "[" + caption + "](" + target + ")" + rest;
    var j := |caption| + 1;
    var e := j + 2 + |target|;
    assert forall m :: 0 < m < j ==> line[m] == caption[m - 1];
    assert forall m :: j + 2 <= m < e ==> line[m] == target[m - j - 2];
  }

  /** A match at the start whose target cannot be extended yields its target. */
  lemma LinkAtStart(line: string, j: nat, e: nat)
    requires Matches(line, 0, j, e)
    requires forall m :: e < m < FirstFrom(line, ']', j + 2) ==> line[m] != ')'
    ensures Link(line) == Some(line[j + 2..e])
  {
    MatchSpanGreedy(line, 0, j, e);
  }
}

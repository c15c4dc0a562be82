/** Reading the COPYUID response code of a UID MOVE (aggregator/src/one_mail_agg/mutation_jobs.py),
    the response of section 3 of RFC 4315. */
module CopyUid {
  import opened Wrappers
  import opened Text

  const MAX_UID_SET_EXPANSION: nat := 1000
  const MAX_UID: nat := 4_294_967_295

  /** The two exceptions the reader can raise. Only the first is one its caller expects. */
  datatype Fault = IdentityFault | ValueFault

  // ----- UID sets -----

  function Split(s: string, c: char): (parts: seq<string>)
    ensures parts != []
    decreases |s|
  {
    var i := IndexOf(s, c);
    if i == |s| then [s] else [s[..i]] + Split(s[i + 1..], c)
  }

  /** All the UIDs from `a` to `b`, in whichever direction. */
  function Range(a: nat, b: nat): (r: seq<nat>)
    ensures |r| == if a <= b then b - a + 1 else a - b + 1
    ensures forall i | 0 <= i < |r| :: r[i] == if a <= b then a + i else a - i
    decreases if a <= b then b - a else a - b
  {
    if a == b then [a] else [a] + Range(if a < b then a + 1 else a - 1, b)
  }

  /** One comma-separated part, appended to what was expanded so far. */
  function ExpandPart(part: string, out: seq<nat>): Result<seq<nat>, Fault> {
    var i := IndexOf(part, ':');
    if i < |part| then
      match (ParseInt(part[..i]), ParseInt(part[i + 1..]))
      case (Some(a), Some(b)) =>
        var size := (if a <= b then b - a else a - b) + 1;
        if size > MAX_UID_SET_EXPANSION || |out| + size > MAX_UID_SET_EXPANSION then Err(IdentityFault)
        else Ok(out + Range(a, b))
      case (_, _) => Err(ValueFault)
    else
      match ParseInt(part)
      case Some(a) => if |out| + 1 > MAX_UID_SET_EXPANSION then Err(IdentityFault) else Ok(out + [a])
      case None => Err(ValueFault)
  }

  function ExpandParts(parts: seq<string>, out: seq<nat>): Result<seq<nat>, Fault> {
    if parts == [] then
      if 0 in out then Err(IdentityFault) else Ok(out)
    else
      match ExpandPart(parts[0], out)
      case Err(e) => Err(e)
      case Ok(more) => ExpandParts(parts[1..], more)
  }

  function Expand(value: string): Result<seq<nat>, Fault> { ExpandParts(Split(value, ','), []) }

  /** The loop of `_expand_uid_set`. The list never grows past the bound by more than the
      one element whose append is then refused; no oversized range is ever built. */
  method ExpandUidSet(value: string) returns (r: Result<seq<nat>, Fault>)
    ensures r == Expand(value)
    ensures r.Ok? ==> |r.value| <= MAX_UID_SET_EXPANSION && 0 !in r.value
  {
    var out: seq<nat> := [];
    var parts := Split(value, ',');
    for k := 0 to |parts|
      invariant |out| <= MAX_UID_SET_EXPANSION
      invariant Expand(value) == ExpandParts(parts[k..], out)
    {
      var part := parts[k];
      assert parts[k..][0] == part && parts[k..][1..] == parts[k + 1..];
      var i := IndexOf(part, ':');
      if i < |part| {
        var start, end := ParseInt(part[..i]), ParseInt(part[i + 1..]);
        if start.None? || end.None? {
          return Err(ValueFault);
        }
        var size := (if end.value >= start.value then end.value - start.value else start.value - end.value) + 1;
        if size > MAX_UID_SET_EXPANSION || |out| + size > MAX_UID_SET_EXPANSION {
          return Err(IdentityFault);
        }
        out := out + Range(start.value, end.value);
      } else {
        var n := ParseInt(part);
        if n.None? {
          return Err(ValueFault);
        }
        out := out + [n.value];
      }
      if |out| > MAX_UID_SET_EXPANSION {
        return Err(IdentityFault);
      }
    }
    r := if 0 in out then Err(IdentityFault) else Ok(out);
  }

  // ----- The response text -----

  predicate IsSpace(c: char) { c in " \t\n\r" || c == 11 as char || c == 12 as char || 28 as char <= c <= 31 as char }
  predicate IsSetChar(c: char) { IsDigit(c) || c == ':' || c == ',' }

  function Upper(c: char): char { if 'a' <= c <= 'z' then 'A' + (c - 'a') else c }

  /** The end of the longest run of characters satisfying `p` from `i`. */
  function RunEnd(p: char -> bool, t: string, i: nat): (j: nat)
    requires i <= |t|
    ensures i <= j <= |t|
    decreases |t| - i
  {
    if i < |t| && p(t[i]) then RunEnd(p, t, i + 1) else i
  }

  lemma {:induction false} RunEndIs(p: char -> bool, t: string, i: nat, j: nat)
    requires i <= j <= |t|
    requires forall k | i <= k < j :: p(t[k])
    requires j < |t| ==> !p(t[j])
    ensures RunEnd(p, t, i) == j
    decreases j - i
  {
    if i < j {
      RunEndIs(p, t, i + 1, j);
    }
  }

  predicate KeywordAt(t: string, i: nat) {
    i + 7 <= |t| && Upper(t[i]) == 'C' && Upper(t[i + 1]) == 'O' && Upper(t[i + 2]) == 'P'
    && Upper(t[i + 3]) == 'Y' && Upper(t[i + 4]) == 'U' && Upper(t[i + 5]) == 'I' && Upper(t[i + 6]) == 'D'
  }

  datatype Match = Match(uidvalidity: string, source: string, target: string)

  /** The pattern after its opening alternative: keyword, number, two sets, then `]` or the end. */
  function MatchAt(t: string, i: nat): Option<Match> {
    if !KeywordAt(t, i) then None
    else
      var a := RunEnd(IsSpace, t, i + 7);
      var b := RunEnd(IsDigit, t, a);
      var c := RunEnd(IsSpace, t, b);
      var d := RunEnd(IsSetChar, t, c);
      var e := RunEnd(IsSpace, t, d);
      var g := RunEnd(IsSetChar, t, e);
      if i + 7 < a < b < c < d < e < g && (g == |t| || t[g] == ']' || (g == |t| - 1 && t[g] == '\n'))
      then Some(Match(t[a..b], t[c..d], t[e..g]))
      else None
  }

  /** Leftmost match: at the very start, or after a `[`. */
  function Search(t: string, i: nat): Option<Match>
    requires i <= |t|
    decreases |t| - i
  {
    if i == 0 && MatchAt(t, 0).Some? then MatchAt(t, 0)
    else if i < |t| && t[i] == '[' && MatchAt(t, i + 1).Some? then MatchAt(t, i + 1)
    else if i < |t| then Search(t, i + 1)
    else None
  }

  datatype Mapping = Absent | Mapped(uidvalidity: nat, uid: nat) | Raised(fault: Fault)

  function PositionOf(x: nat, s: seq<nat>): (i: nat)
    ensures i <= |s| && forall k | 0 <= k < i :: s[k] != x
    ensures i < |s| ==> s[i] == x
  {
    if s == [] || s[0] == x then 0 else 1 + PositionOf(x, s[1..])
  }

  function FromMatch(m: Match, sourceUid: nat): Mapping {
    match ParseInt(m.uidvalidity)
    case None => Raised(ValueFault)
    case Some(v) =>
      match Expand(m.source)
      case Err(e) => Raised(e)
      case Ok(sources) =>
        match Expand(m.target)
        case Err(e) => Raised(e)
        case Ok(targets) =>
          if v == 0 || |sources| != |targets| then Raised(IdentityFault)
          else
            var i := PositionOf(sourceUid, sources);
            if i == |sources| then Raised(IdentityFault) else Mapped(v, targets[i])
  }

  /** `_parse_copyuid`. */
  function Parse(response: Option<string>, sourceUid: nat): Mapping {
    match response
    case None => Absent
    case Some(text) =>
      match Search(text, 0)
      case None => Absent
      case Some(m) => FromMatch(m, sourceUid)
  }

  // ----- Printing, and the round trip -----

  /** A single UID, or a range in either direction. */
  datatype Segment = Segment(first: nat, last: nat)

  predicate ValidSegments(segs: seq<Segment>) {
    forall g | g in segs :: 0 < g.first <= MAX_UID && 0 < g.last <= MAX_UID
  }

  function PrintSegment(g: Segment): string {
    if g.first == g.last then Print(g.first) else Print(g.first) + ":" + Print(g.last)
  }

  function PrintSet(segs: seq<Segment>): string {
    if segs == [] then []
    else if |segs| == 1 then PrintSegment(segs[0])
    else PrintSegment(segs[0]) + "," + PrintSet(segs[1..])
  }

  function Flatten(segs: seq<Segment>): seq<nat> {
    if segs == [] then [] else Range(segs[0].first, segs[0].last) + Flatten(segs[1..])
  }

  lemma {:induction false} SegmentChars(g: Segment)
    ensures PrintSegment(g) != []
    ensures forall k | 0 <= k < |PrintSegment(g)| :: IsDigit(PrintSegment(g)[k]) || PrintSegment(g)[k] == ':'
  {
  }

  lemma {:induction false} SetChars(segs: seq<Segment>)
    requires segs != []
    ensures Field(IsSetChar, PrintSet(segs))
  {
    SegmentChars(segs[0]);
    if |segs| > 1 {
      SetChars(segs[1..]);
    }
  }

  function Prints(segs: seq<Segment>): seq<string> {
    if segs == [] then [] else [PrintSegment(segs[0])] + Prints(segs[1..])
  }

  lemma {:induction false} SplitPrinted(segs: seq<Segment>)
    requires segs != []
    ensures Split(PrintSet(segs), ',') == Prints(segs)
  {
    var p, s := PrintSegment(segs[0]), PrintSet(segs);
    SegmentChars(segs[0]);
    assert s[..|p|] == p;
    IndexOfIs(s, ',', |p|);
    if |segs| > 1 {
      assert s[|p| + 1..] == PrintSet(segs[1..]);
      SplitPrinted(segs[1..]);
    }
  }

  lemma {:induction false} ExpandPrintedSegment(g: Segment, out: seq<nat>)
    requires ValidSegments([g]) && |out| + |Range(g.first, g.last)| <= MAX_UID_SET_EXPANSION
    ensures ExpandPart(PrintSegment(g), out) == Ok(out + Range(g.first, g.last))
  {
    assert g in [g];
    var p, a, b := PrintSegment(g), Print(g.first), Print(g.last);
    ParsePrinted(g.first);
    ParsePrinted(g.last);
    if g.first == g.last {
      IndexOfIs(p, ':', |p|);
    } else {
      assert p[..|a|] == a && p[|a| + 1..] == b;
      IndexOfIs(p, ':', |a|);
    }
  }

  lemma {:induction false} ExpandPrintedParts(segs: seq<Segment>, out: seq<nat>)
    requires ValidSegments(segs) && 0 !in out && |out| + |Flatten(segs)| <= MAX_UID_SET_EXPANSION
    ensures ExpandParts(Prints(segs), out) == Ok(out + Flatten(segs))
    decreases |segs|
  {
    if segs == [] {
      assert out + Flatten(segs) == out;
    } else {
      var g, r, rest := segs[0], Range(segs[0].first, segs[0].last), Flatten(segs[1..]);
      ValidHead(segs);
      assert ExpandPart(PrintSegment(g), out) == Ok(out + r) by {
        ExpandPrintedSegment(g, out);
      }
      RangePositive(g, out);
      ExpandPrintedParts(segs[1..], out + r);
      ExpandFirst(PrintSegment(g), Prints(segs[1..]), out, out + r);
      Regroup(out, r, rest);
    }
  }

  lemma {:induction false} ValidHead(segs: seq<Segment>)
    requires segs != [] && ValidSegments(segs)
    ensures ValidSegments([segs[0]]) && ValidSegments(segs[1..])
  {
    assert segs[0] in segs;
  }

  lemma {:induction false} Regroup(a: seq<nat>, b: seq<nat>, c: seq<nat>)
    ensures a + b + c == a + (b + c)
  {
  }

  lemma {:induction false} RangePositive(g: Segment, out: seq<nat>)
    requires ValidSegments([g]) && 0 !in out
    ensures 0 !in out + Range(g.first, g.last)
  {
    assert g in [g];
  }

  lemma {:induction false} ExpandFirst(part: string, parts: seq<string>, out: seq<nat>, more: seq<nat>)
    requires ExpandPart(part, out) == Ok(more)
    ensures ExpandParts([part] + parts, out) == ExpandParts(parts, more)
  {
    assert ([part] + parts)[1..] == parts;
  }

  /** Any printed set of at most 1000 UIDs, in ascending or descending ranges, reads back. */
  lemma {:induction false} ExpandPrinted(segs: seq<Segment>)
    requires segs != [] && ValidSegments(segs) && |Flatten(segs)| <= 1000
    ensures Expand(PrintSet(segs)) == Ok(Flatten(segs))
  {
    SplitPrinted(segs);
    ExpandPrintedParts(segs, []);
    assert [] + Flatten(segs) == Flatten(segs);
  }

  lemma {:induction false} ExpandOverflow(g: Segment, out: seq<nat>)
    requires ValidSegments([g]) && |out| + |Range(g.first, g.last)| > MAX_UID_SET_EXPANSION
    ensures ExpandPart(PrintSegment(g), out) == Err(IdentityFault)
  {
    assert g in [g];
    var p, a, b := PrintSegment(g), Print(g.first), Print(g.last);
    ParsePrinted(g.first);
    ParsePrinted(g.last);
    if g.first == g.last {
      IndexOfIs(p, ':', |p|);
    } else {
      assert p[..|a|] == a && p[|a| + 1..] == b;
      IndexOfIs(p, ':', |a|);
    }
  }

  lemma {:induction false} ExpandOverflows(segs: seq<Segment>, out: seq<nat>)
    requires ValidSegments(segs) && |out| <= MAX_UID_SET_EXPANSION < |out| + |Flatten(segs)|
    ensures ExpandParts(Prints(segs), out) == Err(IdentityFault)
    decreases |segs|
  {
    var g := segs[0];
    assert g in segs;
    if |out| + |Range(g.first, g.last)| <= MAX_UID_SET_EXPANSION {
      ExpandPrintedSegment(g, out);
      ExpandOverflows(segs[1..], out + Range(g.first, g.last));
      assert Prints(segs)[1..] == Prints(segs[1..]);
    } else {
      ExpandOverflow(g, out);
    }
  }

  /** A printed set of more than 1000 UIDs is refused as a whole, never truncated. */
  lemma {:induction false} ExpandTooLarge(segs: seq<Segment>)
    requires ValidSegments(segs) && |Flatten(segs)| > 1000
    ensures Expand(PrintSet(segs)) == Err(IdentityFault)
  {
    SplitPrinted(segs);
    ExpandOverflows(segs, []);
  }

  function Code(v: nat, source: seq<Segment>, target: seq<Segment>): string {
    CodeText(Print(v), PrintSet(source), PrintSet(target))
  }

  function CodeText(n: string, s: string, g: string): string {
    "COPYUID" + (" " + (n + (" " + (s + (" " + g)))))
  }

  /** `piece` stands in `t` at position `i`. */
  predicate At(t: string, i: nat, piece: string) {
    i + |piece| <= |t| && forall k | 0 <= k < |piece| :: piece[k] == t[i + k]
  }

  lemma {:induction false} AtParts(t: string, i: nat, x: string, y: string)
    requires At(t, i, x + y)
    ensures At(t, i, x) && At(t, i + |x|, y)
  {
    assert forall k | 0 <= k < |x| :: x[k] == (x + y)[k];
    assert forall k | 0 <= k < |y| :: y[k] == (x + y)[|x| + k];
  }

  lemma {:induction false} RunAt(p: char -> bool, t: string, i: nat, piece: string)
    requires At(t, i, piece) && forall k | 0 <= k < |piece| :: p(piece[k])
    requires i + |piece| < |t| ==> !p(t[i + |piece|])
    ensures RunEnd(p, t, i) == i + |piece|
  {
    forall k | i <= k < i + |piece|
      ensures p(t[k])
    {
      assert t[k] == piece[k - i];
    }
    RunEndIs(p, t, i, i + |piece|);
  }

  predicate Field(p: char -> bool, s: string) {
    s != [] && !IsSpace(s[0]) && forall k | 0 <= k < |s| :: p(s[k])
  }

  /** The printed code matches wherever it stands, when `]` or the end follows. */
  lemma {:induction false} MatchText(t: string, i: nat, n: string, s: string, g: string)
    requires Field(IsDigit, n) && Field(IsSetChar, s) && Field(IsSetChar, g)
    requires At(t, i, CodeText(n, s, g))
    requires var h := i + |CodeText(n, s, g)|; h < |t| ==> t[h] == ']'
    ensures MatchAt(t, i) == Some(Match(n, s, g))
  {
    var b, d, h := CodePieces(t, i, n, s, g);
    CodeLength(n, s, g);
    MatchPieces(t, i, b, d, h, n, s, g);
  }

  /** Where the pieces of a code stand: its fields end at b, d and h. */
  predicate CodeAt(t: string, i: nat, b: nat, d: nat, h: nat, n: string, s: string, g: string) {
    b == i + 8 + |n| && d == b + 1 + |s| && h == d + 1 + |g| <= |t| && KeywordAt(t, i)
    && At(t, i + 7, " ") && At(t, i + 8, n) && At(t, b, " ") && At(t, b + 1, s)
    && At(t, d, " ") && At(t, d + 1, g)
  }

  lemma {:induction false} CodePieces(t: string, i: nat, n: string, s: string, g: string) returns (b: nat, d: nat,
                                      h: nat)
    requires At(t, i, CodeText(n, s, g))
    ensures CodeAt(t, i, b, d, h, n, s, g)
  {
    AtParts(t, i, "COPYUID", " " + (n + (" " + (s + (" " + g)))));
    KeywordStands(t, i);
    AtParts(t, i + 7, " ", n + (" " + (s + (" " + g))));
    AtParts(t, i + 8, n, " " + (s + (" " + g)));
    b := i + 8 + |n|;
    AtParts(t, b, " ", s + (" " + g));
    AtParts(t, b + 1, s, " " + g);
    d := b + 1 + |s|;
    AtParts(t, d, " ", g);
    h := d + 1 + |g|;
  }

  lemma {:induction false} CodeLength(n: string, s: string, g: string)
    ensures |CodeText(n, s, g)| == 10 + |n| + |s| + |g|
  {
  }

  lemma {:induction false} KeywordStands(t: string, i: nat)
    requires At(t, i, "COPYUID")
    ensures KeywordAt(t, i)
  {
    var k := "COPYUID";
    assert k[0] == t[i] && k[1] == t[i + 1] && k[2] == t[i + 2] && k[3] == t[i + 3];
    assert k[4] == t[i + 4] && k[5] == t[i + 5] && k[6] == t[i + 6];
  }

  lemma {:induction false} MatchPieces(t: string, i: nat, b: nat, d: nat, h: nat, n: string, s: string, g: string)
    requires Field(IsDigit, n) && Field(IsSetChar, s) && Field(IsSetChar, g)
    requires CodeAt(t, i, b, d, h, n, s, g)
    requires h == |t| || t[h] == ']'
    ensures MatchAt(t, i) == Some(Match(n, s, g))
  {
    FieldThenSpace(IsDigit, t, i + 7, b, n);
    FieldThenSpace(IsSetChar, t, b, d, s);
    FieldRuns(IsSetChar, t, d, h, g);
    MatchEnds(t, i, b, d, h);
  }

  lemma {:induction false} FieldThenSpace(p: char -> bool, t: string, i: nat, j: nat, field: string)
    requires At(t, i, " ") && At(t, i + 1, field) && j == i + 1 + |field| && At(t, j, " ")
    requires Field(p, field) && !p(' ')
    ensures RunEnd(IsSpace, t, i) == i + 1 && i + 1 < j <= |t|
    ensures RunEnd(p, t, i + 1) == j
    ensures t[i + 1..j] == field
  {
    AtFirst(t, j, " ");
    FieldRuns(p, t, i, j, field);
  }

  lemma {:induction false} MatchEnds(t: string, i: nat, b: nat, d: nat, h: nat)
    requires i + 8 < b && b + 1 < d && d + 1 < h <= |t| && KeywordAt(t, i)
    requires RunEnd(IsSpace, t, i + 7) == i + 8 && RunEnd(IsDigit, t, i + 8) == b
    requires RunEnd(IsSpace, t, b) == b + 1 && RunEnd(IsSetChar, t, b + 1) == d
    requires RunEnd(IsSpace, t, d) == d + 1 && RunEnd(IsSetChar, t, d + 1) == h
    requires h == |t| || t[h] == ']'
    ensures MatchAt(t, i) == Some(Match(t[i + 8..b], t[b + 1..d], t[d + 1..h]))
  {
  }

  /** A space and then a field, up to a character outside the field. */
  lemma {:induction false} FieldRuns(p: char -> bool, t: string, i: nat, j: nat, field: string)
    requires At(t, i, " ") && At(t, i + 1, field) && j == i + 1 + |field|
    requires Field(p, field)
    requires j == |t| || !p(t[j])
    ensures RunEnd(IsSpace, t, i) == i + 1 && i + 1 < j <= |t|
    ensures RunEnd(p, t, i + 1) == j
    ensures t[i + 1..j] == field
  {
    AtFirst(t, i, " ");
    AtFirst(t, i + 1, field);
    RunAt(IsSpace, t, i, " ");
    RunAt(p, t, i + 1, field);
    assert t[i + 1..j] == field;
  }

  lemma {:induction false} AtFirst(t: string, i: nat, piece: string)
    requires At(t, i, piece) && piece != []
    ensures i < |t| && t[i] == piece[0]
  {
  }

  lemma {:induction false} SearchSkips(t: string, i: nat, j: nat)
    requires i <= j < |t| && forall k | i <= k < j :: t[k] != '['
    requires t[j] == '[' && MatchAt(t, j + 1).Some?
    requires i == 0 ==> MatchAt(t, 0).None?
    ensures Search(t, i) == MatchAt(t, j + 1)
    decreases j - i
  {
    if i < j {
      SearchSkips(t, i + 1, j);
    }
  }

  lemma {:induction false} PositionInDistinct(s: seq<nat>, i: nat)
    requires i < |s| && forall a, b | 0 <= a < b < |s| :: s[a] != s[b]
    ensures PositionOf(s[i], s) == i
  {
    var j := PositionOf(s[i], s);
    assert !(j < i) && !(i < j);
  }

  /** Round trip: two equally long UID lists, printed as any comma-separated ranges in a
      bracketed response code after any text without a bracket, read back so that each
      source UID maps to the target UID at the same position. */
  lemma {:induction false} CopyUidRoundTrip(before: string, v: nat, source: seq<Segment>, target: seq<Segment>,
                                            after: string, i: nat)
    requires '[' !in before && (before == [] || Upper(before[0]) != 'C')
    requires 0 < v <= MAX_UID && source != [] && target != [] && ValidSegments(source) && ValidSegments(target)
    requires |Flatten(source)| == |Flatten(target)| <= 1000
    requires forall a, b | 0 <= a < b < |Flatten(source)| :: Flatten(source)[a] != Flatten(source)[b]
    requires i < |Flatten(source)|
    ensures Parse(Some(before + "[" + Code(v, source, target) + "]" + after), Flatten(source)[i])
            == Mapped(v, Flatten(target)[i])
  {
    var code := Code(v, source, target);
    var t := before + "[" + code + "]" + after;
    SearchPrinted(before, v, source, target, after);
    FromPrinted(v, source, target, i);
  }

  lemma {:induction false} SearchPrinted(before: string, v: nat, source: seq<Segment>, target: seq<Segment>,
                                         after: string)
    requires '[' !in before && (before == [] || Upper(before[0]) != 'C')
    requires source != [] && target != []
    ensures Search(before + "[" + Code(v, source, target) + "]" + after, 0)
            == Some(Match(Print(v), PrintSet(source), PrintSet(target)))
  {
    SetChars(source);
    SetChars(target);
    SearchText(before, Print(v), PrintSet(source), PrintSet(target), after);
  }

  lemma {:induction false} SearchText(before: string, n: string, s: string, g: string, after: string)
    requires '[' !in before && (before == [] || Upper(before[0]) != 'C')
    requires Field(IsDigit, n) && Field(IsSetChar, s) && Field(IsSetChar, g)
    ensures Search(before + "[" + CodeText(n, s, g) + "]" + after, 0) == Some(Match(n, s, g))
  {
    SearchBracketed(before, CodeText(n, s, g), after);
    var t := before + "[" + CodeText(n, s, g) + "]" + after;
    MatchText(t, |before| + 1, n, s, g);
    assert !KeywordAt(t, 0) by {
      assert t[0] == if before != [] then before[0] else '[';
    }
    SearchSkips(t, 0, |before|);
  }

  lemma {:induction false} SearchBracketed(before: string, code: string, after: string)
    requires '[' !in before
    ensures var t := before + "[" + code + "]" + after;
            var j := |before|;
            t[j] == '[' && At(t, j + 1, code) && j + 1 + |code| < |t| && t[j + 1 + |code|] == ']'
            && (forall k | 0 <= k < j :: t[k] != '[')
            && (before != [] ==> t[0] == before[0])
  {
    var t := before + "[" + code + "]" + after;
    assert forall k | 0 <= k < |before| :: t[k] == before[k];
    assert forall k | 0 <= k < |code| :: code[k] == t[|before| + 1 + k];
  }

  lemma {:induction false} FromPrinted(v: nat, source: seq<Segment>, target: seq<Segment>, i: nat)
    requires 0 < v <= MAX_UID && source != [] && target != [] && ValidSegments(source) && ValidSegments(target)
    requires |Flatten(source)| == |Flatten(target)| <= MAX_UID_SET_EXPANSION
    requires forall a, b | 0 <= a < b < |Flatten(source)| :: Flatten(source)[a] != Flatten(source)[b]
    requires i < |Flatten(source)|
    ensures FromMatch(Match(Print(v), PrintSet(source), PrintSet(target)), Flatten(source)[i])
            == Mapped(v, Flatten(target)[i])
  {
    ParsePrinted(v);
    ExpandPrinted(source);
    ExpandPrinted(target);
    PositionInDistinct(Flatten(source), i);
  }

  function Triple(a: nat, b: nat, c: nat): string {
    Print(a) + ":" + (Print(b) + ":" + Print(c))
  }

  /** A code whose source set is `a:b:c` raises Python's ValueError, not the identity error
      the caller guards against. */
  lemma {:induction false} TripleUnreadable(v: nat, a: nat, b: nat, c: nat, d: nat, uid: nat)
    requires v <= MAX_UID
    ensures Parse(Some("[" + CodeText(Print(v), Triple(a, b, c), Print(d)) + "]"), uid) == Raised(ValueFault)
  {
    TripleFields(v, a, b, c, d);
    TripleRaises(v, a, b, c, Print(d), uid);
    ParseText(Print(v), Triple(a, b, c), Print(d), uid);
  }

  lemma {:induction false} ParseText(n: string, s: string, g: string, uid: nat)
    requires Field(IsDigit, n) && Field(IsSetChar, s) && Field(IsSetChar, g)
    ensures Parse(Some("[" + CodeText(n, s, g) + "]"), uid) == FromMatch(Match(n, s, g), uid)
  {
    SearchText("", n, s, g, "");
    EmptyAround(CodeText(n, s, g));
  }

  lemma {:induction false} TripleRaises(v: nat, a: nat, b: nat, c: nat, target: string, uid: nat)
    requires v <= MAX_UID
    ensures FromMatch(Match(Print(v), Triple(a, b, c), target), uid) == Raised(ValueFault)
  {
    TripleExpands(a, b, c);
    ParsePrinted(v);
  }

  lemma {:induction false} TripleFields(v: nat, a: nat, b: nat, c: nat, d: nat)
    ensures Field(IsDigit, Print(v)) && Field(IsSetChar, Triple(a, b, c)) && Field(IsSetChar, Print(d))
  {
  }

  lemma {:induction false} TripleExpands(a: nat, b: nat, c: nat)
    ensures Expand(Triple(a, b, c)) == Err(ValueFault)
  {
    var s, rest := Triple(a, b, c), Print(b) + ":" + Print(c);
    IndexOfIs(s, ',', |s|);
    assert Split(s, ',') == [s];
    IndexOfIs(s, ':', |Print(a)|);
    assert s[|Print(a)| + 1..] == rest;
    assert rest[|Print(b)|] == ':';
    assert !AllDigits(rest);
    assert ExpandPart(s, []) == Err(ValueFault);
  }

  /** The shortest such printing: maximal ascending ranges. */
  function Runs(uids: seq<nat>): (segs: seq<Segment>)
    ensures uids != [] ==> segs != [] && segs[0].first == uids[0] && segs[0].first <= segs[0].last
  {
    if uids == [] then []
    else
      var rest := Runs(uids[1..]);
      if rest != [] && rest[0].first == uids[0] + 1 then [Segment(uids[0], rest[0].last)] + rest[1..]
      else [Segment(uids[0], uids[0])] + rest
  }

  lemma {:induction false} RunsFlatten(uids: seq<nat>)
    ensures Flatten(Runs(uids)) == uids
  {
    if uids != [] {
      RunsFlatten(uids[1..]);
      assert uids == [uids[0]] + uids[1..];
      var rest := Runs(uids[1..]);
      if rest != [] && rest[0].first == uids[0] + 1 {
        MergeFlatten(uids[0], rest);
      } else {
        assert ([Segment(uids[0], uids[0])] + rest)[1..] == rest;
        assert Range(uids[0], uids[0]) == [uids[0]];
      }
    }
  }

  lemma {:induction false} MergeFlatten(u: nat, rest: seq<Segment>)
    requires rest != [] && rest[0].first == u + 1 <= rest[0].last
    ensures Flatten([Segment(u, rest[0].last)] + rest[1..]) == [u] + Flatten(rest)
  {
    var merged := [Segment(u, rest[0].last)] + rest[1..];
    assert merged[1..] == rest[1..];
    var tail := Range(rest[0].first, rest[0].last);
    assert Range(u, rest[0].last) == [u] + tail;
    assert [u] + tail + Flatten(rest[1..]) == [u] + (tail + Flatten(rest[1..]));
  }

  lemma {:induction false} RunsValid(uids: seq<nat>)
    requires forall k | 0 <= k < |uids| :: 0 < uids[k] <= MAX_UID
    ensures ValidSegments(Runs(uids))
  {
    if uids != [] {
      RunsValid(uids[1..]);
      var rest := Runs(uids[1..]);
      forall g | g in Runs(uids)
        ensures 0 < g.first <= MAX_UID && 0 < g.last <= MAX_UID
      {
        if g !in rest {
          assert rest != [] ==> rest[0] in rest;
        }
      }
    }
  }

  /** The lists themselves: printing both in maximal ascending ranges and reading them back. */
  lemma {:induction false} CopyUidListRoundTrip(v: nat, sources: seq<nat>, targets: seq<nat>, i: nat)
    requires 0 < v <= MAX_UID && 0 < |sources| == |targets| <= 1000
    requires forall k | 0 <= k < |sources| :: 0 < sources[k] <= MAX_UID && 0 < targets[k] <= MAX_UID
    requires forall a, b | 0 <= a < b < |sources| :: sources[a] != sources[b]
    requires i < |sources|
    ensures Parse(Some("[" + Code(v, Runs(sources), Runs(targets)) + "]"), sources[i]) == Mapped(v, targets[i])
  {
    RunsFlatten(sources);
    RunsFlatten(targets);
    RunsValid(sources);
    RunsValid(targets);
    EmptyAround(Code(v, Runs(sources), Runs(targets)));
    CopyUidRoundTrip("", v, Runs(sources), Runs(targets), "", i);
  }

  lemma {:induction false} EmptyAround(code: string)
    ensures "" + "[" + code + "]" + "" == "[" + code + "]"
  {
  }
}

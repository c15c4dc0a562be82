/** Which responses hold a COPYUID code and what it maps (aggregator/src/one_mail_agg/mutation_jobs.py),
    in terms of the text alone. */
module CopyUidCodes {
  import opened Wrappers
  import opened Text
  import opened CopyUid
  import opened CopyUidFaults

  // ----- Where a code stands -----

  ghost predicate AllOf(p: char -> bool, t: string, i: nat, j: nat)
    requires j <= |t|
  {
    forall k | i <= k < j :: p(t[k])
  }

  /** The keyword in any case, a number and two sets, each after blanks, then `]`, the end, or a
      line feed at the end. */
  ghost predicate CodeStands(t: string, i: nat, at: seq<nat>) {
    && |at| == 6 && i + 7 < at[0] < at[1] < at[2] < at[3] < at[4] < at[5] <= |t|
    && (forall k | 0 <= k < 7 :: t[i + k] == "COPYUID"[k] || t[i + k] == "copyuid"[k])
    && AllOf(IsSpace, t, i + 7, at[0]) && AllOf(IsDigit, t, at[0], at[1])
    && AllOf(IsSpace, t, at[1], at[2]) && AllOf(IsSetChar, t, at[2], at[3])
    && AllOf(IsSpace, t, at[3], at[4]) && AllOf(IsSetChar, t, at[4], at[5])
    && (at[5] == |t| || t[at[5]] == ']' || (at[5] + 1 == |t| && t[at[5]] == '\n'))
  }

  ghost predicate CodeReads(t: string, i: nat, m: Match) {
    exists at: seq<nat> :: CodeStands(t, i, at)
                           && m == Match(t[at[0]..at[1]], t[at[2]..at[3]], t[at[4]..at[5]])
  }

  lemma {:induction false} KeywordExactly(t: string, i: nat)
    requires i + 7 <= |t|
    ensures KeywordAt(t, i) <==> forall k | 0 <= k < 7 :: t[i + k] == "COPYUID"[k] || t[i + k] == "copyuid"[k]
  {
    var capital, small := "COPYUID", "copyuid";
    forall k | 0 <= k < 7
      ensures Upper(t[i + k]) == capital[k] <==> t[i + k] == capital[k] || t[i + k] == small[k]
    {
    }
    assert capital[0] == 'C' && capital[1] == 'O' && capital[2] == 'P' && capital[3] == 'Y';
    assert capital[4] == 'U' && capital[5] == 'I' && capital[6] == 'D';
    if KeywordAt(t, i) {
      forall k | 0 <= k < 7
        ensures Upper(t[i + k]) == capital[k]
      {
      }
    } else {
      assert !(Upper(t[i + 0]) == 'C' && Upper(t[i + 1]) == 'O' && Upper(t[i + 2]) == 'P' && Upper(t[i + 3]) == 'Y'
               && Upper(t[i + 4]) == 'U' && Upper(t[i + 5]) == 'I' && Upper(t[i + 6]) == 'D');
    }
  }

  /** A code is matched at a place exactly when it stands there, and with its own fields. */
  lemma {:induction false} MatchExactly(t: string, i: nat, m: Match)
    ensures MatchAt(t, i) == Some(m) <==> CodeReads(t, i, m)
  {
    if MatchAt(t, i) == Some(m) {
      MatchStands(t, i);
    }
    if at: seq<nat> :| CodeStands(t, i, at) && m == Match(t[at[0]..at[1]], t[at[2]..at[3]], t[at[4]..at[5]]) {
      StandsMatches(t, i, at);
    }
  }

  lemma {:induction false} MatchStands(t: string, i: nat)
    requires MatchAt(t, i).Some?
    ensures CodeReads(t, i, MatchAt(t, i).value)
  {
    KeywordExactly(t, i);
    var at := MatchParts(t, i);
    RunIsAll(IsSpace, t, i + 7, at[0]);
    RunIsAll(IsDigit, t, at[0], at[1]);
    RunIsAll(IsSpace, t, at[1], at[2]);
    RunIsAll(IsSetChar, t, at[2], at[3]);
    RunIsAll(IsSpace, t, at[3], at[4]);
    RunIsAll(IsSetChar, t, at[4], at[5]);
  }

  /** Where the fields of a match end. */
  lemma {:induction false} MatchParts(t: string, i: nat) returns (at: seq<nat>)
    requires MatchAt(t, i).Some?
    ensures |at| == 6 && i + 7 < at[0] < at[1] < at[2] < at[3] < at[4] < at[5] <= |t| && KeywordAt(t, i)
    ensures at[0] == RunEnd(IsSpace, t, i + 7) && at[1] == RunEnd(IsDigit, t, at[0])
    ensures at[2] == RunEnd(IsSpace, t, at[1]) && at[3] == RunEnd(IsSetChar, t, at[2])
    ensures at[4] == RunEnd(IsSpace, t, at[3]) && at[5] == RunEnd(IsSetChar, t, at[4])
    ensures at[5] == |t| || t[at[5]] == ']' || (at[5] + 1 == |t| && t[at[5]] == '\n')
    ensures MatchAt(t, i).value == Match(t[at[0]..at[1]], t[at[2]..at[3]], t[at[4]..at[5]])
  {
    var a := RunEnd(IsSpace, t, i + 7);
    var b := RunEnd(IsDigit, t, a);
    var c := RunEnd(IsSpace, t, b);
    var d := RunEnd(IsSetChar, t, c);
    var e := RunEnd(IsSpace, t, d);
    at := [a, b, c, d, e, RunEnd(IsSetChar, t, e)];
  }

  lemma {:induction false} RunIsAll(p: char -> bool, t: string, i: nat, j: nat)
    requires i <= |t| && j == RunEnd(p, t, i)
    ensures AllOf(p, t, i, j)
  {
    RunSatisfies(p, t, i);
  }

  lemma {:induction false} StandsMatches(t: string, i: nat, at: seq<nat>)
    requires CodeStands(t, i, at)
    ensures MatchAt(t, i) == Some(Match(t[at[0]..at[1]], t[at[2]..at[3]], t[at[4]..at[5]]))
  {
    KeywordExactly(t, i);
    RunEndIs(IsSpace, t, i + 7, at[0]);
    RunEndIs(IsDigit, t, at[0], at[1]);
    RunEndIs(IsSpace, t, at[1], at[2]);
    RunEndIs(IsSetChar, t, at[2], at[3]);
    RunEndIs(IsSpace, t, at[3], at[4]);
    RunEndIs(IsSetChar, t, at[4], at[5]);
  }

  /** A code may stand at the start of a response or after an opening bracket. */
  predicate Opens(t: string, i: nat) { i == 0 || (i <= |t| && t[i - 1] == '[') }

  /** Where a code is matched. */
  ghost function Hits(t: string): iset<nat> { iset j: nat | MatchAt(t, j).Some? }

  /** None of these, where a code may stand from one place up to another. */
  ghost predicate NoneIn(t: string, hits: iset<nat>, from: nat, to: nat) {
    forall j: nat | from <= j < to && Opens(t, j) :: j !in hits
  }

  /** The first code of a response. */
  ghost predicate FirstCode(t: string, i: nat, m: Match) {
    Opens(t, i) && MatchAt(t, i) == Some(m) && NoneIn(t, Hits(t), 0, i)
  }

  /** From position `i` on the search has these places left: the start only at first. */
  function Left(i: nat): nat { if i == 0 then 0 else i + 1 }

  lemma {:induction false} NoneEarlier(t: string, hits: iset<nat>, i: nat, to: nat)
    requires i < |t| && NoneIn(t, hits, i + 2, to)
    requires (i == 0 ==> 0 !in hits) && (t[i] == '[' ==> i + 1 !in hits)
    ensures NoneIn(t, hits, Left(i), to)
  {
  }

  lemma {:induction false} SearchNone(t: string, i: nat)
    requires i <= |t| && Search(t, i).None?
    ensures NoneIn(t, Hits(t), Left(i), |t| + 1)
    decreases |t| - i
  {
    if i < |t| {
      SearchNone(t, i + 1);
      NoneEarlier(t, Hits(t), i, |t| + 1);
    }
  }

  lemma {:induction false} SearchSome(t: string, i: nat) returns (j: nat)
    requires i <= |t| && Search(t, i).Some?
    ensures Opens(t, j) && MatchAt(t, j) == Search(t, i) && NoneIn(t, Hits(t), Left(i), j)
    decreases |t| - i
  {
    if i == 0 && MatchAt(t, 0).Some? {
      j := 0;
    } else if i < |t| && t[i] == '[' && MatchAt(t, i + 1).Some? {
      j := i + 1;
      NothingBetween(t, Hits(t), i);
    } else {
      j := SearchSome(t, i + 1);
      NoneEarlier(t, Hits(t), i, j);
    }
  }

  lemma {:induction false} NothingBetween(t: string, hits: iset<nat>, i: nat)
    requires i == 0 ==> 0 !in hits
    ensures NoneIn(t, hits, Left(i), i + 1)
  {
  }

  // ----- What a set names -----

  /** The UIDs a readable part stands for, in the direction it is written. */
  function PartUids(part: string): seq<nat> {
    var i := IndexOf(part, ':');
    if i < |part| then Range(Number(part[..i]), Number(part[i + 1..])) else [Number(part)]
  }

  function Uids(parts: seq<string>): seq<nat> { if parts == [] then [] else PartUids(parts[0]) + Uids(parts[1..]) }

  lemma {:induction false} PartsGive(parts: seq<string>, out: seq<nat>)
    requires ExpandParts(parts, out).Ok?
    ensures ExpandParts(parts, out).value == out + Uids(parts)
    decreases |parts|
  {
    if parts == [] {
      assert out + Uids(parts) == out;
    } else {
      var more := ExpandPart(parts[0], out).value;
      PartGives(parts[0], out);
      PartsGive(parts[1..], more);
      Regroup(out, PartUids(parts[0]), Uids(parts[1..]));
    }
  }

  lemma {:induction false} PartGives(part: string, out: seq<nat>)
    requires ExpandPart(part, out).Ok?
    ensures ExpandPart(part, out).value == out + PartUids(part)
  {
  }

  /** A set that reads names the UIDs of its parts, part after part. */
  lemma {:induction false} ExpandExactly(s: string)
    requires OfSetChars(s)
    ensures Expand(s) == if PartsRead(Split(s, ','), 0) then Ok(Uids(Split(s, ',')))
                         else if SetFaults(s) then Err(ValueFault) else Err(IdentityFault)
  {
    ExpandReadsExactlyWhen(s);
    ExpandFaultsExactlyWhen(s);
    assert Expand(s).Err? ==> Expand(s).error == ValueFault || Expand(s).error == IdentityFault;
    if Expand(s).Ok? {
      PartsGive(Split(s, ','), []);
      assert [] + Uids(Split(s, ',')) == Uids(Split(s, ','));
    }
  }

  /** Its parts are what stands between its commas. */
  lemma {:induction false} SplitExactly(s: string)
    ensures var parts := Split(s, ',');
            Joined(parts) == s && forall k | 0 <= k < |parts| :: ',' !in parts[k]
    decreases |s|
  {
    var i := IndexOf(s, ',');
    if i < |s| {
      SplitExactly(s[i + 1..]);
      assert Split(s, ',')[1..] == Split(s[i + 1..], ',');
      assert s == s[..i] + "," + s[i + 1..];
    }
  }

  function Joined(parts: seq<string>): string
    requires parts != []
  {
    if |parts| == 1 then parts[0] else parts[0] + "," + Joined(parts[1..])
  }

  // ----- What a response maps -----

  /** The code maps `uid` to `to`: a UIDVALIDITY above 0, two sets that read and are of the same
      length, and `to` where `uid` first stands. */
  ghost predicate Maps(m: Match, uid: nat, v: nat, to: nat) {
    && AllDigits(m.uidvalidity) && |m.uidvalidity| <= 4300 && v == Value(m.uidvalidity) > 0
    && PartsRead(Split(m.source, ','), 0) && PartsRead(Split(m.target, ','), 0)
    && var sources, targets := Uids(Split(m.source, ',')), Uids(Split(m.target, ','));
       |sources| == |targets|
       && exists k | 0 <= k < |sources| :: sources[k] == uid && targets[k] == to && uid !in sources[..k]
  }

  ghost predicate HasFirst(t: string, m: Match) { exists j: nat :: FirstCode(t, j, m) }

  /** The search finds the first code, or that there is none. */
  lemma {:induction false} SearchExactly(t: string)
    ensures Search(t, 0).None? <==> NoneIn(t, Hits(t), 0, |t| + 1)
    ensures forall m :: Search(t, 0) == Some(m) <==> HasFirst(t, m)
  {
    if Search(t, 0).None? {
      SearchNone(t, 0);
      forall m
        ensures !HasFirst(t, m)
      {
        if j: nat :| FirstCode(t, j, m) {
          FirstIsOnly(t, j, m);
        }
      }
    } else {
      var j := SearchSome(t, 0);
      FirstIsOnly(t, j, Search(t, 0).value);
    }
  }

  lemma {:induction false} FirstIsOnly(t: string, j: nat, m: Match)
    requires FirstCode(t, j, m)
    ensures forall m' :: HasFirst(t, m') <==> m' == m
    ensures !NoneIn(t, Hits(t), 0, |t| + 1)
  {
    var hits := Hits(t);
    assert j in hits;
    forall j': nat, m' | FirstCode(t, j', m')
      ensures m' == m
    {
      assert j' in hits;
      assert !(j < j') && !(j' < j);
    }
  }

  /** What reading a response comes to: nothing without a code, and the target of the UID when its
      first code maps it. All else is an error: the ValueError of a code that cannot be read
      (`CopyUidFaults.ValueFaultExactlyWhen`), or the identity error. */
  lemma {:induction false} ParseExactly(t: string, uid: nat)
    ensures Parse(Some(t), uid) == Absent <==> NoneIn(t, Hits(t), 0, |t| + 1)
    ensures forall v, to :: Parse(Some(t), uid) == Mapped(v, to) <==> exists m :: HasFirst(t, m) && Maps(m, uid, v, to)
  {
    SearchExactly(t);
    if Search(t, 0).Some? {
      SearchChars(t, 0);
      FromMatchExactly(Search(t, 0).value, uid);
    }
  }

  lemma {:induction false} FromMatchExactly(m: Match, uid: nat)
    requires m.uidvalidity != [] && AllDigits(m.uidvalidity) && OfSetChars(m.source) && OfSetChars(m.target)
    ensures forall v, to :: FromMatch(m, uid) == Mapped(v, to) <==> Maps(m, uid, v, to)
  {
    ExpandExactly(m.source);
    ExpandExactly(m.target);
    var sources, targets := Uids(Split(m.source, ',')), Uids(Split(m.target, ','));
    forall k | 0 <= k < |sources| && sources[k] == uid && uid !in sources[..k]
      ensures PositionOf(uid, sources) == k
    {
      PositionFirst(uid, sources, k);
    }
    var i := PositionOf(uid, sources);
    assert forall k | 0 <= k < i :: sources[k] != uid;
    assert uid !in sources[..i];
  }

  lemma {:induction false} PositionFirst(x: nat, s: seq<nat>, k: nat)
    requires k < |s| && s[k] == x && x !in s[..k]
    ensures PositionOf(x, s) == k
  {
    var i := PositionOf(x, s);
    forall j | 0 <= j < k
      ensures s[j] != x
    {
      assert s[j] in s[..k];
    }
  }
}

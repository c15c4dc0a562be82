/** Which COPYUID codes the reader cannot read (aggregator/src/one_mail_agg/mutation_jobs.py):
    the ValueError of Python's `int`, in terms of the text. */
module CopyUidFaults {
  import opened Wrappers
  import opened Text
  import opened CopyUid

  /** A number of a set that `int` refuses: empty, with a colon left in it, or too long. */
  predicate Unreadable(text: string) { text == "" || ':' in text || |text| > 4300 }

  predicate OfSetChars(s: string) { forall i | 0 <= i < |s| :: IsSetChar(s[i]) }

  predicate PartChars(s: string) { forall i | 0 <= i < |s| :: IsDigit(s[i]) || s[i] == ':' }

  lemma {:induction false} UnreadableIs(text: string)
    requires PartChars(text)
    ensures ParseInt(text).None? <==> Unreadable(text)
  {
    if ':' in text {
      var i :| 0 <= i < |text| && text[i] == ':';
      assert !IsDigit(text[i]);
    } else {
      forall i | 0 <= i < |text|
        ensures IsDigit(text[i])
      {
        assert text[i] in text;
      }
    }
  }

  /** Only the first colon of a part separates. */
  predicate BadPart(part: string) {
    var i := IndexOf(part, ':');
    if i < |part| then Unreadable(part[..i]) || Unreadable(part[i + 1..]) else Unreadable(part)
  }

  function Number(text: string): nat { if ParseInt(text).Some? then ParseInt(text).value else 0 }

  /** How many UIDs a readable part stands for. */
  function PartSize(part: string): nat {
    var i := IndexOf(part, ':');
    if i < |part| then
      var a, b := Number(part[..i]), Number(part[i + 1..]);
      (if a <= b then b - a else a - b) + 1
    else 1
  }

  function TotalSize(parts: seq<string>): nat { if parts == [] then 0 else PartSize(parts[0]) + TotalSize(parts[1..]) }

  /** Part `k` is the first bad one, and those before it stay within the bound. */
  ghost predicate FaultAt(parts: seq<string>, out: nat, k: nat) {
    k < |parts| && BadPart(parts[k]) && (forall j | 0 <= j < k :: !BadPart(parts[j]))
    && out + TotalSize(parts[..k]) <= 1000
  }

  lemma {:induction false} PartIs(part: string, out: seq<nat>)
    requires PartChars(part)
    ensures BadPart(part) <==> ExpandPart(part, out) == Err(ValueFault)
    ensures ExpandPart(part, out).Ok? ==> |ExpandPart(part, out).value| == |out| + PartSize(part)
    ensures !BadPart(part) ==> (ExpandPart(part, out).Ok? <==> |out| + PartSize(part) <= MAX_UID_SET_EXPANSION)
  {
    var i := IndexOf(part, ':');
    if i < |part| {
      UnreadableIs(part[..i]);
      UnreadableIs(part[i + 1..]);
    } else {
      UnreadableIs(part);
    }
  }

  lemma {:induction false} PartsFault(parts: seq<string>, out: seq<nat>)
    requires forall k | 0 <= k < |parts| :: PartChars(parts[k])
    requires |out| <= MAX_UID_SET_EXPANSION
    ensures ExpandParts(parts, out) == Err(ValueFault) <==> exists k: nat :: FaultAt(parts, |out|, k)
    decreases |parts|
  {
    if parts != [] {
      var more, rest := ExpandPart(parts[0], out), parts[1..];
      PartIs(parts[0], out);
      if BadPart(parts[0]) {
        assert parts[..0] == [];
        assert FaultAt(parts, |out|, 0);
      } else if more.Ok? {
        PartsFault(rest, more.value);
        FaultShifts(parts, |out|, |more.value|);
      } else {
        forall k: nat
          ensures !FaultAt(parts, |out|, k)
        {
          if 0 < k < |parts| {
            assert parts[..k][0] == parts[0];
          }
        }
      }
    }
  }

  lemma {:induction false} FaultShifts(parts: seq<string>, out: nat, more: nat)
    requires parts != [] && !BadPart(parts[0]) && more == out + PartSize(parts[0])
    ensures (exists k: nat :: FaultAt(parts, out, k)) <==> exists k: nat :: FaultAt(parts[1..], more, k)
  {
    var rest := parts[1..];
    if k: nat :| FaultAt(parts, out, k) {
      assert k > 0;
      assert parts[..k][1..] == rest[..k - 1];
      assert FaultAt(rest, more, k - 1);
    }
    if k: nat :| FaultAt(rest, more, k) {
      assert parts[..k + 1][1..] == rest[..k];
      assert forall j | 0 < j < k + 1 :: parts[j] == rest[j - 1];
      assert FaultAt(parts, out, k + 1);
    }
  }

  lemma {:induction false} SplitChars(s: string)
    requires OfSetChars(s)
    ensures forall k | 0 <= k < |Split(s, ',')| :: PartChars(Split(s, ',')[k])
    decreases |s|
  {
    var i := IndexOf(s, ',');
    if i < |s| {
      SplitChars(s[i + 1..]);
    }
  }

  /** A UID set raises ValueError exactly when some part is bad, all parts before it are good
      and stand for at most 1000 UIDs together. */
  ghost predicate SetFaults(s: string) { exists k: nat :: FaultAt(Split(s, ','), 0, k) }

  lemma {:induction false} ExpandFaultsExactlyWhen(s: string)
    requires OfSetChars(s)
    ensures Expand(s) == Err(ValueFault) <==> SetFaults(s)
  {
    SplitChars(s);
    PartsFault(Split(s, ','), []);
  }

  /** A range reaches 0 only at an end. */
  predicate HasZero(part: string) {
    var i := IndexOf(part, ':');
    if i < |part| then Number(part[..i]) == 0 || Number(part[i + 1..]) == 0 else Number(part) == 0
  }

  /** Every part is readable and names no UID 0, and together they stay within the bound. */
  ghost predicate PartsRead(parts: seq<string>, out: nat) {
    (forall k | 0 <= k < |parts| :: !BadPart(parts[k]) && !HasZero(parts[k]))
    && out + TotalSize(parts) <= 1000
  }

  lemma {:induction false} ZeroInRange(a: nat, b: nat)
    ensures 0 in Range(a, b) <==> a == 0 || b == 0
  {
    var r := Range(a, b);
    assert r[0] == a && r[|r| - 1] == b;
  }

  lemma {:induction false} PartZero(part: string, out: seq<nat>)
    requires PartChars(part) && ExpandPart(part, out).Ok?
    ensures 0 in ExpandPart(part, out).value <==> 0 in out || HasZero(part)
  {
    var i := IndexOf(part, ':');
    if i < |part| {
      ZeroInRange(Number(part[..i]), Number(part[i + 1..]));
    }
  }

  lemma {:induction false} PartsReadIs(parts: seq<string>, out: seq<nat>)
    requires forall k | 0 <= k < |parts| :: PartChars(parts[k])
    requires |out| <= MAX_UID_SET_EXPANSION
    ensures ExpandParts(parts, out).Ok? <==> PartsRead(parts, |out|) && 0 !in out
    decreases |parts|
  {
    if parts != [] {
      var more, rest := ExpandPart(parts[0], out), parts[1..];
      PartIs(parts[0], out);
      assert forall k | 0 <= k < |rest| :: rest[k] == parts[k + 1];
      assert forall k | 0 < k < |parts| :: parts[k] == rest[k - 1];
      if more.Ok? {
        PartZero(parts[0], out);
        PartsReadIs(rest, more.value);
      }
    }
  }

  /** A UID set is accepted exactly when it reads in this sense. */
  lemma {:induction false} ExpandReadsExactlyWhen(s: string)
    requires OfSetChars(s)
    ensures Expand(s).Ok? <==> PartsRead(Split(s, ','), 0)
  {
    SplitChars(s);
    PartsReadIs(Split(s, ','), []);
  }

  lemma {:induction false} RunSatisfies(p: char -> bool, t: string, i: nat)
    requires i <= |t|
    ensures forall k | i <= k < RunEnd(p, t, i) :: p(t[k])
    decreases |t| - i
  {
    if i < |t| && p(t[i]) {
      RunSatisfies(p, t, i + 1);
    }
  }

  lemma {:induction false} MatchAtChars(t: string, i: nat)
    requires i <= |t| && MatchAt(t, i).Some?
    ensures var m := MatchAt(t, i).value;
            m.uidvalidity != [] && AllDigits(m.uidvalidity) && OfSetChars(m.source) && OfSetChars(m.target)
  {
    var a := RunEnd(IsSpace, t, i + 7);
    var b := RunEnd(IsDigit, t, a);
    var c := RunEnd(IsSpace, t, b);
    var d := RunEnd(IsSetChar, t, c);
    var e := RunEnd(IsSpace, t, d);
    RunSatisfies(IsDigit, t, a);
    RunSatisfies(IsSetChar, t, c);
    RunSatisfies(IsSetChar, t, e);
  }

  lemma {:induction false} SearchChars(t: string, i: nat)
    requires i <= |t| && Search(t, i).Some?
    ensures var m := Search(t, i).value;
            m.uidvalidity != [] && AllDigits(m.uidvalidity) && OfSetChars(m.source) && OfSetChars(m.target)
    decreases |t| - i
  {
    if i == 0 && MatchAt(t, 0).Some? {
      MatchAtChars(t, 0);
    } else if t[i] == '[' && MatchAt(t, i + 1).Some? {
      MatchAtChars(t, i + 1);
    } else {
      SearchChars(t, i + 1);
    }
  }

  /** The response holds a code with a number `int` refuses, reached before anything else is
      wrong with it: a UIDVALIDITY of too many digits, a faulty source set, or a faulty target
      set after a source set that reads. */
  ghost predicate UnreadableCode(response: Option<string>) {
    response.Some? && Search(response.value, 0).Some?
    && var m := Search(response.value, 0).value;
       |m.uidvalidity| > 4300 || SetFaults(m.source)
       || (PartsRead(Split(m.source, ','), 0) && SetFaults(m.target))
  }

  /** Reading a response raises ValueError exactly for such a code, whatever UID is asked for. */
  lemma {:induction false} ValueFaultExactlyWhen(response: Option<string>, uid: nat)
    ensures Parse(response, uid) == Raised(ValueFault) <==> UnreadableCode(response)
  {
    if response.Some? && Search(response.value, 0).Some? {
      var m := Search(response.value, 0).value;
      SearchChars(response.value, 0);
      ExpandFaultsExactlyWhen(m.source);
      ExpandReadsExactlyWhen(m.source);
      ExpandFaultsExactlyWhen(m.target);
      FromMatchFaults(m, uid);
    }
  }

  lemma {:induction false} FromMatchFaults(m: Match, uid: nat)
    requires m.uidvalidity != [] && AllDigits(m.uidvalidity)
    ensures FromMatch(m, uid) == Raised(ValueFault)
            <==> |m.uidvalidity| > INT_DIGITS_LIMIT || Expand(m.source) == Err(ValueFault)
                 || (Expand(m.source).Ok? && Expand(m.target) == Err(ValueFault))
  {
  }
}

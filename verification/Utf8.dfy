/**
 The UTF-8 recogniser of dotnet/libs/om.utils/EncodeUtils.cs, against the octet shapes of
 section 2 of RFC 2279 and the narrower ones of section 4 of RFC 3629.
 */
module Utf8 {
  import opened Sequences

  // ----- the standards -----

  /** The table of section 2 of RFC 2279: how many octets a first octet announces, 0 for none. */
  function Octets(b: bv8): (n: nat)
    ensures n <= 6
    ensures Trailing(b) ==> n == 0
  {
    if b & 0x80 == 0 then 1
    else if b & 0xE0 == 0xC0 then 2
    else if b & 0xF0 == 0xE0 then 3
    else if b & 0xF8 == 0xF0 then 4
    else if b & 0xFC == 0xF8 then 5
    else if b & 0xFE == 0xFC then 6
    else 0
  }

  predicate Trailing(b: bv8) { b & 0xC0 == 0x80 }

  /** A first octet and exactly the trailing octets it announces. */
  predicate IsCharacter(c: seq<bv8>) {
    c != [] && Octets(c[0]) == |c| && forall i :: 1 <= i < |c| ==> Trailing(c[i])
  }

  ghost predicate Splits(chars: seq<seq<bv8>>, s: seq<bv8>) {
    Flatten(chars) == s && forall i :: 0 <= i < |chars| ==> IsCharacter(chars[i])
  }

  /** s splits into characters. */
  ghost predicate IsText(s: seq<bv8>) {
    exists chars :: Splits(chars, s)
  }

  ghost predicate IsCutText(s: seq<bv8>) {
    exists rest :: IsText(s + rest)
  }

  // ----- the counter -----

  /** The counter after one more octet; 0 once it was refused. */
  function Step(counter: nat, b: bv8): nat {
    if counter == 0 then 0
    else if counter == 1 then Octets(b)
    else if Trailing(b) then counter - 1
    else 0
  }

  function Scan(s: seq<bv8>): nat {
    if s == [] then 1 else Step(Scan(s[..|s| - 1]), s[|s| - 1])
  }

  lemma {:induction false} RefusedStays(s: seq<bv8>, rest: seq<bv8>)
    requires Scan(s) == 0
    ensures Scan(s + rest) == 0
  {
    if rest == [] {
      assert s + rest == s;
    } else {
      var n := |rest| - 1;
      RefusedStays(s, rest[..n]);
      assert s + rest == s + rest[..n] + [rest[n]];
    }
  }

  /** Inside a character the counter tells how many of its octets are missing, plus one. */
  lemma {:induction false} CharacterScans(s: seq<bv8>, c: seq<bv8>, n: nat)
    requires Scan(s) == 1 && IsCharacter(c) && 1 <= n <= |c|
    ensures Scan(s + c[..n]) == |c| - n + 1
  {
    assert s + c[..n] == s + c[..n - 1] + [c[n - 1]];
    if n > 1 {
      CharacterScans(s, c, n - 1);
    } else {
      assert s + c[..0] == s;
    }
  }

  lemma {:induction false} TextScans(chars: seq<seq<bv8>>)
    requires forall i :: 0 <= i < |chars| ==> IsCharacter(chars[i])
    ensures Scan(Flatten(chars)) == 1
  {
    if chars != [] {
      var n := |chars| - 1;
      TextScans(chars[..n]);
      CharacterScans(Flatten(chars[..n]), chars[n], |chars[n]|);
      assert chars[n][..|chars[n]|] == chars[n];
    }
  }

  /** What the counter says about the octets so far: characters, and the beginning of another. */
  ghost predicate Begun(chars: seq<seq<bv8>>, part: seq<bv8>, s: seq<bv8>, counter: nat) {
    && (forall i :: 0 <= i < |chars| ==> IsCharacter(chars[i]))
    && s == Flatten(chars) + part
    && (if counter == 1 then part == []
        else part != [] && Octets(part[0]) == |part| + counter - 1 && forall i :: 1 <= i < |part| ==> Trailing(part[i]))
  }

  lemma {:induction false} ScanMeans(s: seq<bv8>) returns (chars: seq<seq<bv8>>, part: seq<bv8>)
    requires Scan(s) > 0
    ensures Begun(chars, part, s, Scan(s))
  {
    if s == [] {
      chars, part := [], [];
    } else {
      var n := |s| - 1;
      chars, part := ScanMeans(s[..n]);
      assert s == s[..n] + [s[n]];
      chars, part := OneMore(chars, part, s[..n], Scan(s[..n]), s[n]);
    }
  }

  /** The octet ends the character that was begun, or goes on with it or with a new one. */
  lemma OneMore(chars: seq<seq<bv8>>, part: seq<bv8>, s: seq<bv8>, counter: nat, b: bv8)
    returns (chars2: seq<seq<bv8>>, part2: seq<bv8>)
    requires counter > 0 && Begun(chars, part, s, counter) && Step(counter, b) > 0
    ensures Begun(chars2, part2, s + [b], Step(counter, b))
  {
    var more := part + [b];
    Grouped(Flatten(chars), part, [b]);
    if Step(counter, b) == 1 {
      chars2, part2 := chars + [more], [];
      assert IsCharacter(more);
      FlattenAppend(chars, more);
    } else {
      chars2, part2 := chars, more;
    }
  }

  lemma ScanIsText(s: seq<bv8>)
    ensures Scan(s) == 1 <==> IsText(s)
  {
    if Scan(s) == 1 {
      var chars, part := ScanMeans(s);
      assert Splits(chars, s);
    }
    if IsText(s) {
      var chars :| Splits(chars, s);
      TextScans(chars);
    }
  }

  function Continuation(n: nat): seq<bv8> {
    if n == 0 then [] else [0x80] + Continuation(n - 1)
  }

  /** Trailing octets complete what was begun. */
  lemma {:induction false} Completed(s: seq<bv8>, n: nat)
    requires Scan(s) == n + 1
    ensures Scan(s + Continuation(n)) == 1
    decreases n
  {
    if n == 0 {
      assert s + [] == s;
    } else {
      Completed(s + [0x80], n - 1);
      assert s + Continuation(n) == (s + [0x80]) + Continuation(n - 1);
    }
  }

  lemma ScanIsCutText(s: seq<bv8>)
    ensures Scan(s) > 0 <==> IsCutText(s)
  {
    if Scan(s) > 0 {
      Completed(s, Scan(s) - 1);
      ScanIsText(s + Continuation(Scan(s) - 1));
    }
    if IsCutText(s) {
      var rest :| IsText(s + rest);
      ScanIsText(s + rest);
      if Scan(s) == 0 {
        RefusedStays(s, rest);
      }
    }
  }

  // ----- the loop -----

  /** After `k` shifts: the top k bits of the octet were ones. */
  predicate Shifted(b: bv8, cur: bv8, k: nat) {
    match k
    case 1 => b & 0x80 == 0x80 && cur == b << 1
    case 2 => b & 0xC0 == 0xC0 && cur == b << 2
    case 3 => b & 0xE0 == 0xE0 && cur == b << 3
    case 4 => b & 0xF0 == 0xF0 && cur == b << 4
    case 5 => b & 0xF8 == 0xF8 && cur == b << 5
    case 6 => b & 0xFC == 0xFC && cur == b << 6
    case 7 => b & 0xFE == 0xFE && cur == b << 7
    case 8 => b == 0xFF && cur == 0
    case _ => false
  }

  lemma ShiftEnds(b: bv8, cur: bv8, k: nat)
    requires Shifted(b, cur, k) && cur & 0x80 == 0
    ensures Octets(b) == if k == 1 || k > 6 then 0 else k
  {
  }

  /**
   Whole data is accepted exactly when it splits into characters, and data that may be cut off
   exactly when something can follow it that makes it so.
   */
  method IsUTF8Bytes(data: array<bv8>, isWhole: bool) returns (ok: bool)
    ensures isWhole ==> (ok <==> IsText(data[..]))
    ensures !isWhole ==> (ok <==> IsCutText(data[..]))
  {
    ScanIsText(data[..]);
    ScanIsCutText(data[..]);
    var charByteCounter := 1;
    for i := 0 to data.Length
      invariant charByteCounter > 0 && charByteCounter == Scan(data[..i])
    {
      var curByte := data[i];
      assert data[..i + 1] == data[..i] + [data[i]];
      ghost var rest := data[i + 1..];
      assert data[..] == data[..i + 1] + rest;
      if charByteCounter == 1 {
        if curByte >= 0x80 {
          curByte := curByte << 1;
          while curByte & 0x80 != 0
            invariant Shifted(data[i], curByte, charByteCounter)
            decreases 8 - charByteCounter
          {
            charByteCounter := charByteCounter + 1;
            curByte := curByte << 1;
          }
          ShiftEnds(data[i], curByte, charByteCounter);
          if charByteCounter == 1 || charByteCounter > 6 {
            RefusedStays(data[..i + 1], rest);
            return false;
          }
        }
      } else {
        if curByte & 0xC0 != 0x80 {
          RefusedStays(data[..i + 1], rest);
          return false;
        }
        charByteCounter := charByteCounter - 1;
      }
    }
    assert data[..data.Length] == data[..];
    if charByteCounter > 1 {
      return !isWhole;
    }
    ok := true;
  }

  /** The octet at i begins the last character. */
  predicate IsLastLead(s: seq<bv8>, i: nat) {
    i < |s| && Octets(s[i]) != 0 && forall j :: i < j < |s| ==> Trailing(s[j])
  }

  lemma LastCharacter(front: seq<bv8>, c: seq<bv8>)
    requires IsCharacter(c)
    ensures IsLastLead(front + c, |front|)
  {
  }

  /** There is at most one way to split octets into characters. */
  lemma {:induction false} SplitIsUnique(a: seq<seq<bv8>>, b: seq<seq<bv8>>, s: seq<bv8>)
    requires Splits(a, s) && Splits(b, s)
    ensures a == b
  {
    if a != [] && b != [] {
      var m, n := |a| - 1, |b| - 1;
      var front, other := Flatten(a[..m]), Flatten(b[..n]);
      LastCharacter(front, a[m]);
      LastCharacter(other, b[n]);
      assert front == s[..|front|] == other && a[m] == s[|front|..] == b[n];
      SplitIsUnique(a[..m], b[..n], front);
      assert a == a[..m] + [a[m]] && b == b[..n] + [b[n]];
    }
  }

  // ----- RFC 3629 -----

  predicate In(b: bv8, low: bv8, high: bv8) { low <= b <= high }

  /** UTF8-char in section 4 of RFC 3629. */
  predicate IsStrictCharacter(c: seq<bv8>) {
    match |c|
    case 1 => c[0] <= 0x7F
    case 2 => In(c[0], 0xC2, 0xDF) && In(c[1], 0x80, 0xBF)
    case 3 =>
      && In(c[2], 0x80, 0xBF)
      && (|| (c[0] == 0xE0 && In(c[1], 0xA0, 0xBF))
          || (In(c[0], 0xE1, 0xEC) && In(c[1], 0x80, 0xBF))
          || (c[0] == 0xED && In(c[1], 0x80, 0x9F))
          || (In(c[0], 0xEE, 0xEF) && In(c[1], 0x80, 0xBF)))
    case 4 =>
      && In(c[2], 0x80, 0xBF) && In(c[3], 0x80, 0xBF)
      && (|| (c[0] == 0xF0 && In(c[1], 0x90, 0xBF))
          || (In(c[0], 0xF1, 0xF3) && In(c[1], 0x80, 0xBF))
          || (c[0] == 0xF4 && In(c[1], 0x80, 0x8F)))
    case _ => false
  }

  ghost predicate IsStrictText(s: seq<bv8>) {
    exists chars :: Flatten(chars) == s && forall i :: 0 <= i < |chars| ==> IsStrictCharacter(chars[i])
  }

  lemma StrictIsCharacter(c: seq<bv8>)
    requires IsStrictCharacter(c)
    ensures IsCharacter(c)
  {
  }

  /** Everything that is UTF-8 today is accepted; overlong forms are accepted as well. */
  lemma StrictIsAccepted(s: seq<bv8>)
    ensures IsStrictText(s) ==> IsText(s)
    ensures IsText([0xC0, 0x80]) && !IsStrictText([0xC0, 0x80])
  {
    if IsStrictText(s) {
      var chars :| Flatten(chars) == s && forall i :: 0 <= i < |chars| ==> IsStrictCharacter(chars[i]);
      forall i | 0 <= i < |chars|
        ensures IsCharacter(chars[i])
      {
        StrictIsCharacter(chars[i]);
      }
      assert Splits(chars, s);
    }
    OverlongIsText();
    if IsStrictText([0xC0, 0x80]) {
      var chars: seq<seq<bv8>> :| Flatten(chars) == [0xC0, 0x80] && forall i :: 0 <= i < |chars| ==> IsStrictCharacter(chars[i]);
      FirstOctet(chars);
    }
  }

  lemma OverlongIsText()
    ensures IsText([0xC0, 0x80])
  {
    assert IsCharacter([0xC0, 0x80]);
    assert Flatten([[0xC0, 0x80]]) == [0xC0, 0x80];
    assert Splits([[0xC0, 0x80]], [0xC0, 0x80]);
  }

  /** A strict text does not begin with 0xC0. */
  lemma {:induction false} FirstOctet(chars: seq<seq<bv8>>)
    requires forall i :: 0 <= i < |chars| ==> IsStrictCharacter(chars[i])
    ensures Flatten(chars) != [] ==> Flatten(chars)[0] != 0xC0
  {
    if chars != [] {
      FirstOctet(chars[..|chars| - 1]);
    }
  }
}

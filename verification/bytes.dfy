/** Byte strings, newline splitting and decimal numerals, shared by every checker of the log stream.
    A byte is written as the character with its code, so texts of the source can be quoted. */
module Bytes {
  type bytes = seq<char>

  function Flatten(parts: seq<bytes>): bytes {
    if parts == [] then [] else parts[0] + Flatten(parts[1..])
  }

  lemma {:induction false} FlattenCat(a: seq<bytes>, b: seq<bytes>)
    ensures Flatten(a + b) == Flatten(a) + Flatten(b)
  {
    if a == [] {
      assert a + b == b;
    } else {
      FlattenCat(a[1..], b);
      assert (a + b)[1..] == a[1..] + b;
    }
  }

  lemma FlattenSnoc(a: seq<bytes>, s: bytes)
    ensures Flatten(a + [s]) == Flatten(a) + s
  {
    FlattenCat(a, [s]);
    assert Flatten([s]) == s + Flatten([]);
  }

  function Newline(s: bytes): (i: nat)
    ensures i <= |s| && (i < |s| ==> s[i] == '\n')
    ensures forall k :: 0 <= k < i ==> s[k] != '\n'
  {
    if s == [] then 0 else if s[0] == '\n' then 0 else 1 + Newline(s[1..])
  }

  /** `s.split(b"\n")`. */
  function Split(s: bytes): (parts: seq<bytes>)
    ensures |parts| >= 1
  {
    var i := Newline(s);
    if i == |s| then [s] else [s[..i]] + Split(s[i + 1..])
  }

  /** The complete lines of a buffer, without their newlines, and the half line after them. */
  function Lines(s: bytes): seq<bytes> {
    Split(s)[..|Split(s)| - 1]
  }

  function Rest(s: bytes): bytes {
    Split(s)[|Split(s)| - 1]
  }

  function Terminated(lines: seq<bytes>): bytes {
    if lines == [] then [] else lines[0] + "\n" + Terminated(lines[1..])
  }

  lemma {:induction false} TerminatedCat(a: seq<bytes>, b: seq<bytes>)
    ensures Terminated(a + b) == Terminated(a) + Terminated(b)
  {
    if a == [] {
      assert a + b == b;
    } else {
      TerminatedCat(a[1..], b);
      assert (a + b)[1..] == a[1..] + b;
    }
  }

  lemma NewlineAt(head: bytes, tail: bytes)
    requires '\n' !in head
    ensures Newline(head + "\n" + tail) == |head|
    ensures (head + "\n" + tail)[|head|] == '\n'
  {
    var s := head + "\n" + tail;
    assert s[|head|] == '\n';
    assert forall k :: 0 <= k < |head| ==> s[k] == head[k];
  }

  /** Splitting loses nothing: the pieces rebuild the buffer, hold no newline and are the only such. */
  lemma {:induction false} SplitRebuilds(s: bytes)
    ensures Terminated(Lines(s)) + Rest(s) == s
    ensures '\n' !in Rest(s) && forall l :: l in Lines(s) ==> '\n' !in l
  {
    var i := Newline(s);
    if i < |s| {
      var t := s[i + 1..];
      SplitRebuilds(t);
      assert Lines(s) == [s[..i]] + Lines(t);
      assert Rest(s) == Rest(t);
      assert s == s[..i] + "\n" + t;
      assert Terminated(Lines(s)) == s[..i] + "\n" + Terminated(Lines(t)) by {
        assert Lines(s)[1..] == Lines(t);
      }
    } else {
      assert Lines(s) == [];
      if '\n' in s {
        assert false;
      }
    }
  }

  lemma {:induction false} SplitUnique(lines: seq<bytes>, rest: bytes)
    requires '\n' !in rest && forall l :: l in lines ==> '\n' !in l
    ensures Lines(Terminated(lines) + rest) == lines && Rest(Terminated(lines) + rest) == rest
  {
    var s := Terminated(lines) + rest;
    if lines == [] {
      assert s == rest;
      assert Newline(s) == |s|;
    } else {
      var t := Terminated(lines[1..]) + rest;
      assert s == lines[0] + "\n" + t;
      assert lines[0] in lines;
      NewlineAt(lines[0], t);
      assert s[..|lines[0]|] == lines[0] && s[|lines[0]| + 1..] == t;
      SplitUnique(lines[1..], rest);
    }
  }

  /** Reassembly across any cut: what a second chunk completes is found by splitting the half line
      left by the first together with it. */
  lemma SplitAcross(a: bytes, b: bytes)
    ensures Lines(a + b) == Lines(a) + Lines(Rest(a) + b)
    ensures Rest(a + b) == Rest(Rest(a) + b)
  {
    var c := Rest(a) + b;
    SplitRebuilds(a);
    SplitRebuilds(c);
    Rejoin(a, b, Terminated(Lines(a)), Rest(a), Terminated(Lines(c)), Rest(c));
    TerminatedCat(Lines(a), Lines(c));
    SplitUnique(Lines(a) + Lines(c), Rest(c));
  }

  lemma Rejoin(a: bytes, b: bytes, done: bytes, half: bytes, more: bytes, rest: bytes)
    requires a == done + half && half + b == more + rest
    ensures a + b == (done + more) + rest
  {
    assert a + b == done + (half + b);
  }

  // ----- decimal numerals ------------------------------------------------------------------------

  predicate IsDigit(c: char) {
    '0' <= c <= '9'
  }

  predicate AllDigits(s: bytes) {
    forall i :: 0 <= i < |s| ==> IsDigit(s[i])
  }

  /** `int(s)` of a string of ASCII digits. */
  function Value(s: bytes): nat
    requires AllDigits(s)
  {
    if s == [] then 0 else 10 * Value(s[..|s| - 1]) + (s[|s| - 1] as int - '0' as int)
  }

  function Numeral(n: nat): (s: bytes)
    ensures |s| >= 1 && AllDigits(s) && Value(s) == n
    ensures s[0] == '0' ==> n == 0
  {
    var d := ('0' as int + n % 10) as char;
    if n < 10 then [d] else
    var s := Numeral(n / 10) + [d];
    assert s[..|s| - 1] == Numeral(n / 10);
    s
  }

  function Zeros(k: nat): (s: bytes)
    ensures |s| == k && AllDigits(s)
  {
    if k == 0 then [] else ['0'] + Zeros(k - 1)
  }

  /** `f"{n:0{width}d}"` of a non-negative number. */
  function Padded(n: nat, width: nat): (s: bytes)
    ensures |s| >= 1 && |s| >= width && AllDigits(s) && Value(s) == n
  {
    var s := Numeral(n);
    if |s| >= width then s else
    LeadingZeros(width - |s|, s);
    Zeros(width - |s|) + s
  }

  lemma {:induction false} LeadingZeros(k: nat, s: bytes)
    requires AllDigits(s)
    ensures Value(Zeros(k) + s) == Value(s)
  {
    var z := Zeros(k) + s;
    if s != [] {
      LeadingZeros(k, s[..|s| - 1]);
      assert z[..|z| - 1] == Zeros(k) + s[..|s| - 1];
    } else if k > 0 {
      AllZeros(k);
      assert z == Zeros(k);
    }
  }

  lemma {:induction false} AllZeros(k: nat)
    ensures Value(Zeros(k)) == 0 && forall i :: 0 <= i < k ==> Zeros(k)[i] == '0'
    ensures k > 0 ==> Zeros(k)[..k - 1] == Zeros(k - 1)
  {
    if k > 0 {
      AllZeros(k - 1);
      assert Zeros(k)[..k - 1] == Zeros(k - 1);
    }
  }

  /** Digits of one length are told by their value. */
  lemma {:induction false} ValueInjective(a: bytes, b: bytes)
    requires AllDigits(a) && AllDigits(b) && |a| == |b| && Value(a) == Value(b)
    ensures a == b
  {
    if a != [] {
      var n := |a| - 1;
      LastDigit(a);
      LastDigit(b);
      ValueInjective(a[..n], b[..n]);
      assert a == a[..n] + [a[n]] && b == b[..n] + [b[n]];
    }
  }

  /** Decimal notation: the last digit counts one, what stands before it ten. */
  lemma LastDigit(s: bytes)
    requires AllDigits(s) && s != []
    ensures AllDigits(s[..|s| - 1]) && '0' <= s[|s| - 1] <= '9'
    ensures Value(s) == 10 * Value(s[..|s| - 1]) + (s[|s| - 1] as int - '0' as int)
  {
  }

  lemma {:induction false} ValueBound(s: bytes, bound: nat)
    requires AllDigits(s)
    requires |s| == 2 ==> bound == 100
    requires |s| == 4 ==> bound == 10000
    requires |s| in {2, 4}
    ensures Value(s) < bound
  {
    LastDigit(s);
    LastDigit(s[..|s| - 1]);
    if |s| == 4 {
      LastDigit(s[..3][..2]);
      LastDigit(s[..3][..2][..1]);
    }
  }

  /** The end of the run of digits starting at `i`. */
  function DigitRun(s: bytes, i: nat): (j: nat)
    requires i <= |s|
    ensures i <= j <= |s| && (j < |s| ==> !IsDigit(s[j]))
    ensures forall k :: i <= k < j ==> IsDigit(s[k])
    decreases |s| - i
  {
    if i == |s| || !IsDigit(s[i]) then i else DigitRun(s, i + 1)
  }

  lemma DigitRunIs(s: bytes, i: nat, j: nat)
    requires i <= j <= |s| && (j < |s| ==> !IsDigit(s[j]))
    requires forall k :: i <= k < j ==> IsDigit(s[k])
    ensures DigitRun(s, i) == j
  {
    var k := DigitRun(s, i);
    assert k < |s| ==> !IsDigit(s[k]);
  }
}

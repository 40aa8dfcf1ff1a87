/** Numerals (section 6 of RFC 8259): what the lexer reads as a number is a numeral of the
    grammar, and a numeral that nothing can continue is read whole (src/parser/lexer.c). */
module Numerals {
  import opened Bytes
  import opened Lexing

  // ---------------------------------------------------------------- the grammar

  /** One or more digits. */
  predicate DigitRun(s: bytes, i: nat, j: nat) {
    i < j <= |s| && forall k :: i <= k < j ==> 0x30 <= s[k] <= 0x39
  }

  /** A zero, or digits that do not start with zero. */
  predicate IntPart(s: bytes, i: nat, j: nat) {
    DigitRun(s, i, j) && (s[i] == 48 ==> j == i + 1)
  }

  /** Nothing, or a point and digits. */
  predicate FracPart(s: bytes, i: nat, j: nat) {
    j == i || (ByteAt(s, i, 46) && DigitRun(s, i + 1, j))
  }

  predicate IsSign(s: bytes, i: nat) { ByteAt(s, i, 43) || ByteAt(s, i, 45) }

  /** Nothing, or a letter e, perhaps a sign, and digits. */
  predicate ExpPart(s: bytes, i: nat, j: nat) {
    j == i || ((ByteAt(s, i, 101) || ByteAt(s, i, 69)) && (DigitRun(s, i + 1, j) || (IsSign(s, i + 1) && DigitRun(s, i + 2, j))))
  }

  predicate SplitAt(s: bytes, i: nat, a: nat, b: nat, c: nat, j: nat) {
    (a == i || (a == i + 1 && ByteAt(s, i, 45))) && IntPart(s, a, b) && FracPart(s, b, c) && ExpPart(s, c, j)
  }

  /** number = [ minus ] int [ frac ] [ exp ] */
  ghost predicate Numeral(s: bytes, i: nat, j: nat) {
    exists a: nat, b: nat, c: nat :: SplitAt(s, i, a, b, c, j)
  }

  /** The numeral has a fraction or an exponent. */
  ghost predicate Fractional(raw: bytes) {
    exists a: nat, b: nat, c: nat :: SplitAt(raw, 0, a, b, c, |raw|) && (b < c || c < |raw|)
  }

  /** Nothing at `j` continues a numeral. */
  predicate Stops(s: bytes, j: nat) {
    j < |s| ==> !(0x30 <= s[j] <= 0x39) && s[j] != 46 && s[j] != 101 && s[j] != 69
  }

  // ---------------------------------------------------------------- the lexer

  lemma {:induction false} RunEnds(s: bytes, i: nat, j: nat)
    requires DigitRun(s, i, j) && (j < |s| ==> !IsDigit(s[j]))
    ensures DigitsEnd(s, i) == j
    decreases j - i
  {
    if i + 1 < j {
      RunEnds(s, i + 1, j);
    }
  }

  lemma EndRuns(s: bytes, i: nat)
    requires DigitAt(s, i)
    ensures DigitRun(s, i, DigitsEnd(s, i)) && DigitsEnd(s, i) == DigitsEnd(s, i + 1)
  {
  }

  lemma IntExact(s: bytes, i: nat, j: nat)
    ensures IntEnd(s, i).Some? ==> IntPart(s, i, IntEnd(s, i).value)
    ensures IntPart(s, i, j) && (j < |s| ==> !IsDigit(s[j])) ==> IntEnd(s, i) == Some(j)
  {
    hide DigitsEnd;
    if DigitAt(s, i) {
      EndRuns(s, i);
    }
    if IntPart(s, i, j) && (j < |s| ==> !IsDigit(s[j])) {
      RunEnds(s, i, j);
    }
  }

  lemma FracExact(s: bytes, i: nat, j: nat)
    requires i <= |s|
    ensures FracEnd(s, i).Some? ==> FracPart(s, i, FracEnd(s, i).value)
    ensures FracPart(s, i, j) && (j < |s| ==> !IsDigit(s[j]) && s[j] != 46) ==> FracEnd(s, i) == Some(j)
  {
    hide DigitsEnd;
    if DigitAt(s, i + 1) {
      EndRuns(s, i + 1);
    }
    if ByteAt(s, i, 46) && DigitRun(s, i + 1, j) && (j < |s| ==> !IsDigit(s[j])) {
      RunEnds(s, i + 1, j);
    }
  }

  lemma SignIs(s: bytes, i: nat)
    requires i <= |s|
    ensures SignEnd(s, i) == if IsSign(s, i) then i + 1 else i
    ensures IsSign(s, i) ==> !DigitAt(s, i)
  {
  }

  lemma ExpExact(s: bytes, i: nat, j: nat)
    requires i <= |s|
    ensures ExpEnd(s, i).Some? ==> ExpPart(s, i, ExpEnd(s, i).value)
    ensures ExpPart(s, i, j) && Stops(s, j) ==> ExpEnd(s, i) == Some(j)
  {
    hide DigitsEnd;
    hide SignEnd;
    if ByteAt(s, i, 101) || ByteAt(s, i, 69) {
      SignIs(s, i + 1);
      var k := SignEnd(s, i + 1);
      if DigitAt(s, k) {
        EndRuns(s, k);
      }
      if DigitRun(s, k, j) && Stops(s, j) {
        RunEnds(s, k, j);
      }
    }
  }

  lemma Leads(s: bytes, i: nat, a: nat, b: nat, c: nat, j: nat)
    requires SplitAt(s, i, a, b, c, j)
    ensures i < |s| && a == (if s[i] == 45 then i + 1 else i) && a < b <= c <= j <= |s|
    ensures b < c ==> s[b] == 46
    ensures c < j ==> s[c] == 101 || s[c] == 69
  {
  }

  /** What is read as a number is a numeral. */
  lemma NumberSound(s: bytes, p: nat)
    requires p < |s| && NumberEnd(s, p).Some?
    ensures Numeral(s, p, NumberEnd(s, p).value)
  {
    hide IntEnd;
    hide FracEnd;
    hide ExpEnd;
    hide IntPart;
    hide FracPart;
    hide ExpPart;
    var a := if s[p] == 45 then p + 1 else p;
    var b := IntEnd(s, a).value;
    var c := FracEnd(s, b).value;
    IntExact(s, a, b);
    FracExact(s, b, c);
    ExpExact(s, c, NumberEnd(s, p).value);
    assert SplitAt(s, p, a, b, c, NumberEnd(s, p).value);
  }

  /** A numeral that nothing continues is read, and to its end. */
  lemma NumberComplete(s: bytes, p: nat, e: nat)
    requires Numeral(s, p, e) && Stops(s, e)
    ensures p < |s| && NumberEnd(s, p) == Some(e)
  {
    hide IntEnd;
    hide FracEnd;
    hide ExpEnd;
    hide IntPart;
    hide FracPart;
    hide ExpPart;
    hide SplitAt;
    var a: nat, b: nat, c: nat :| SplitAt(s, p, a, b, c, e);
    Leads(s, p, a, b, c, e);
    Pieces(s, p, a, b, c, e);
    IntExact(s, a, b);
    FracExact(s, b, c);
    ExpExact(s, c, e);
  }

  lemma Pieces(s: bytes, i: nat, a: nat, b: nat, c: nat, j: nat)
    requires SplitAt(s, i, a, b, c, j) && Stops(s, j)
    ensures IntPart(s, a, b) && FracPart(s, b, c) && ExpPart(s, c, j)
    ensures b < |s| ==> !IsDigit(s[b])
    ensures c < |s| ==> !IsDigit(s[c]) && s[c] != 46
  {
  }

  /** Before a byte that continues no numeral the lexer and the grammar agree. */
  lemma NumberExact(s: bytes, p: nat, e: nat)
    requires p < |s| && Stops(s, e)
    ensures NumberEnd(s, p) == Some(e) <==> Numeral(s, p, e)
  {
    hide NumberEnd;
    hide Numeral;
    if NumberEnd(s, p) == Some(e) {
      NumberSound(s, p);
    }
    if Numeral(s, p, e) {
      NumberComplete(s, p, e);
    }
  }

  // ---------------------------------------------------------------- the same bytes elsewhere

  predicate SameBytes(s: bytes, i: nat, j: nat, r: bytes, k: nat) {
    i <= j <= |s| && k + (j - i) <= |r| && s[i..j] == r[k..k + (j - i)]
  }

  lemma SameByte(s: bytes, i: nat, j: nat, r: bytes, k: nat, p: nat)
    requires SameBytes(s, i, j, r, k) && i <= p < j
    ensures p - i + k < |r| && s[p] == r[p - i + k]
  {
    assert s[p] == s[i..j][p - i];
  }

  lemma RunMoved(s: bytes, i: nat, j: nat, r: bytes, k: nat, p: nat, q: nat)
    requires SameBytes(s, i, j, r, k) && i <= p <= q <= j && DigitRun(s, p, q)
    ensures DigitRun(r, p - i + k, q - i + k)
  {
    forall m | p - i + k <= m < q - i + k ensures 0x30 <= r[m] <= 0x39 {
      SameByte(s, i, j, r, k, m - k + i);
    }
  }

  /** Whether bytes are a numeral does not depend on where they stand. */
  lemma NumeralMoved(s: bytes, i: nat, j: nat, r: bytes, k: nat)
    requires SameBytes(s, i, j, r, k) && Numeral(s, i, j)
    ensures Numeral(r, k, k + (j - i))
  {
    hide SplitAt;
    hide SameBytes;
    var a: nat, b: nat, c: nat :| SplitAt(s, i, a, b, c, j);
    Leads(s, i, a, b, c, j);
    SplitMoved(s, i, j, r, k, a, b, c);
    assert SplitAt(r, k, a - i + k, b - i + k, c - i + k, j - i + k);
  }

  lemma SplitMoved(s: bytes, i: nat, j: nat, r: bytes, k: nat, a: nat, b: nat, c: nat)
    requires SameBytes(s, i, j, r, k) && SplitAt(s, i, a, b, c, j) && i <= a < b <= c <= j
    ensures SplitAt(r, k, a - i + k, b - i + k, c - i + k, j - i + k)
  {
    hide DigitRun;
    hide SameBytes;
    SplitFits(s, i, a, b, c, j);
    SameByte(s, i, j, r, k, i);
    SameByte(s, i, j, r, k, a);
    RunMoved(s, i, j, r, k, a, b);
    if b < c {
      SameByte(s, i, j, r, k, b);
      RunMoved(s, i, j, r, k, b + 1, c);
    }
    if c < j {
      SameByte(s, i, j, r, k, c);
      if DigitRun(s, c + 1, j) {
        RunMoved(s, i, j, r, k, c + 1, j);
      } else {
        SameByte(s, i, j, r, k, c + 1);
        RunMoved(s, i, j, r, k, c + 2, j);
      }
    }
  }

  lemma SplitFits(s: bytes, i: nat, a: nat, b: nat, c: nat, j: nat)
    requires SplitAt(s, i, a, b, c, j)
    ensures i <= a < b <= c <= j <= |s|
    ensures b < c ==> b + 1 < c
    ensures c < j ==> c + 1 < j && (DigitRun(s, c + 1, j) || c + 2 < j)
  {
  }
}

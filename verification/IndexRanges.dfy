/** Printing of index sets as ranges (crates/ethrpc/src/buffered.rs) and a reader for that text. */
module IndexRanges {
  import opened Prelude

  ghost predicate Increasing(s: seq<nat>) {
    forall i, j :: 0 <= i < j < |s| ==> s[i] < s[j]
  }

  // ---- Decimal numerals ----------------------------------------------------------------------

  predicate IsDigit(c: char) {
    '0' <= c <= '9'
  }

  function Decimal(n: nat): (s: string)
    ensures s != [] && forall i :: 0 <= i < |s| ==> IsDigit(s[i])
  {
    if n < 10 then ['0' + n as char] else Decimal(n / 10) + ['0' + (n % 10) as char]
  }

  function Numeral(s: string): nat {
    if s == [] then 0
    else 10 * Numeral(s[..|s| - 1]) + (if IsDigit(s[|s| - 1]) then (s[|s| - 1] - '0') as nat else 0)
  }

  lemma {:induction false} NumeralOfDecimal(n: nat)
    ensures Numeral(Decimal(n)) == n
  {
    if n >= 10 {
      NumeralOfDecimal(n / 10);
      assert Decimal(n)[..|Decimal(n)| - 1] == Decimal(n / 10);
    } else {
      assert Decimal(n)[..0] == [];
    }
  }

  /** Length of the longest prefix of digits. */
  function DigitCount(s: string): (k: nat)
    ensures k <= |s|
    ensures forall i :: 0 <= i < k ==> IsDigit(s[i])
    ensures k < |s| ==> !IsDigit(s[k])
  {
    if s == [] || !IsDigit(s[0]) then 0 else 1 + DigitCount(s[1..])
  }

  lemma {:induction false} DigitCountOf(digits: string, tail: string)
    requires forall i :: 0 <= i < |digits| ==> IsDigit(digits[i])
    requires tail != [] ==> !IsDigit(tail[0])
    ensures DigitCount(digits + tail) == |digits|
  {
    if digits == [] {
      assert digits + tail == tail;
    } else {
      assert (digits + tail)[1..] == digits[1..] + tail;
      DigitCountOf(digits[1..], tail);
    }
  }

  lemma DecimalIsReadBack(n: nat, tail: string)
    requires tail != [] ==> !IsDigit(tail[0])
    ensures DigitCount(Decimal(n) + tail) == |Decimal(n)|
    ensures Numeral((Decimal(n) + tail)[..|Decimal(n)|]) == n
    ensures (Decimal(n) + tail)[|Decimal(n)|..] == tail
  {
    DigitCountOf(Decimal(n), tail);
    assert (Decimal(n) + tail)[..|Decimal(n)|] == Decimal(n);
    NumeralOfDecimal(n);
  }

  // ---- The printer ---------------------------------------------------------------------------

  /** Two neighbours print as "5,6", longer runs as "5..8". */
  function Sequence(start: nat, last: nat): string
    requires start <= last
  {
    if start == last then Decimal(start)
    else if start == last - 1 then Decimal(start) + "," + Decimal(last)
    else Decimal(start) + ".." + Decimal(last)
  }

  /** The text of the run start..last followed by the remaining indices. */
  function Ranges(start: nat, last: nat, rest: seq<nat>): string
    requires start <= last
    decreases |rest|
  {
    if rest == [] then Sequence(start, last)
    else if rest[0] == last + 1 then Ranges(start, rest[0], rest[1..])
    else Sequence(start, last) + "," + Ranges(rest[0], rest[0], rest[1..])
  }

  function Format(indices: seq<nat>): string {
    if indices == [] then "" else Ranges(indices[0], indices[0], indices[1..])
  }

  /** `last` is a natural number, so `last - 1` is checked not to underflow. */
  method AppendSequence(buffer: string, start: nat, last: nat) returns (r: string)
    requires start <= last
    ensures r == buffer + Sequence(start, last)
  {
    if start == last {
      r := buffer + Decimal(start);
    } else {
      var beforeLast: nat := last - 1;
      if start == beforeLast {
        r := buffer + (Decimal(start) + "," + Decimal(last));
      } else {
        r := buffer + (Decimal(start) + ".." + Decimal(last));
      }
    }
  }

  lemma Separated(a: string, b: string, c: string)
    ensures a + (b + "," + c) == a + b + "," + c
  {
  }

  method FormatIndicesAsRanges(indices: seq<nat>) returns (result: string)
    requires Increasing(indices)
    ensures result == Format(indices)
    ensures indices != [] ==> Decode(result) == Some(indices)
  {
    result := "";
    if indices == [] {
      return;
    }
    var start := indices[0];
    var last := start;
    var i := 1;
    while i < |indices|
      invariant 1 <= i <= |indices|
      invariant start <= last
      invariant result + Ranges(start, last, indices[i..]) == Format(indices)
    {
      var index := indices[i];
      assert indices[i..][0] == index && indices[i..][1..] == indices[i + 1..];
      if index == last + 1 {
        last := index;
      } else {
        var text := AppendSequence(result, start, last);
        Separated(result, Sequence(start, last), Ranges(index, index, indices[i + 1..]));
        result := text + ",";
        start := index;
        last := index;
      }
      i := i + 1;
    }
    result := AppendSequence(result, start, last);
    DecodeFormat(indices);
  }

  // ---- The reader ----------------------------------------------------------------------------

  function Interval(a: nat, b: nat): (r: seq<nat>)
    decreases b + 1 - a
  {
    if a > b then [] else [a] + Interval(a + 1, b)
  }

  /** Reads comma-separated numbers and inclusive ranges. */
  function Decode(s: string): Option<seq<nat>>
    decreases |s|
  {
    var k := DigitCount(s);
    if k == 0 then None
    else
      var n, rest := Numeral(s[..k]), s[k..];
      if |rest| >= 2 && rest[..2] == ".." then
        var j := DigitCount(rest[2..]);
        if j == 0 then None
        else Continue(Interval(n, Numeral(rest[2..][..j])), rest[2..][j..])
      else Continue([n], rest)
  }

  function Continue(head: seq<nat>, rest: string): Option<seq<nat>>
    decreases |rest|, 0
  {
    if rest == [] then Some(head)
    else if rest[0] != ',' then None
    else
      match Decode(rest[1..])
      case None => None
      case Some(tail) => Some(head + tail)
  }

  lemma {:induction false} IntervalSnoc(a: nat, b: nat)
    requires a <= b + 1
    ensures Interval(a, b + 1) == Interval(a, b) + [b + 1]
    decreases b + 1 - a
  {
    if a > b {
    } else {
      IntervalSnoc(a + 1, b);
    }
  }

  lemma DecodeFirst(s: string, k: nat, n: nat, tail: string)
    requires 0 < k <= |s| && DigitCount(s) == k && Numeral(s[..k]) == n && s[k..] == tail
    requires tail != [] ==> tail[0] == ','
    ensures Decode(s) == Continue([n], tail)
  {
  }

  lemma DecodeNumber(n: nat, tail: string)
    requires tail != [] ==> tail[0] == ','
    ensures Decode(Decimal(n) + tail) == Continue([n], tail)
  {
    DecimalIsReadBack(n, tail);
    DecodeFirst(Decimal(n) + tail, |Decimal(n)|, n, tail);
  }

  lemma DecodeInterval(n: nat, m: nat, tail: string)
    requires tail != [] ==> tail[0] == ','
    ensures Decode(Decimal(n) + ".." + Decimal(m) + tail) == Continue(Interval(n, m), tail)
  {
    var rest := ".." + (Decimal(m) + tail);
    IntervalText(Decimal(n), Decimal(m), tail);
    DecimalIsReadBack(n, rest);
    assert rest[..2] == ".." && rest[2..] == Decimal(m) + tail;
    DecimalIsReadBack(m, tail);
  }

  lemma IntervalText(a: string, b: string, tail: string)
    ensures a + ".." + b + tail == a + (".." + (b + tail))
  {
    Regroup(a + "..", b, tail);
    Regroup(a, "..", b + tail);
  }

  /** Two neighbours are printed one after the other. */
  lemma DecodePair(start: nat, last: nat, tail: string)
    requires start + 1 == last && (tail != [] ==> tail[0] == ',')
    ensures Decode(Sequence(start, last) + tail) == Continue(Interval(start, last), tail)
  {
    PairText(Decimal(start), Decimal(last), tail);
    DecodeThen(start, Decimal(last) + tail);
    DecodeNumber(last, tail);
    ContinueTwice(start, last, tail);
  }

  lemma PairText(a: string, b: string, tail: string)
    ensures a + "," + b + tail == a + ("," + (b + tail))
  {
    Regroup(a + ",", b, tail);
    Regroup(a, ",", b + tail);
  }

  /** A number and a comma: reading goes on behind the comma. */
  lemma DecodeThen(n: nat, rest: string)
    ensures Decode(Decimal(n) + ("," + rest)) == match Decode(rest) case None => None case Some(more) => Some([n] + more)
  {
    DecodeNumber(n, "," + rest);
    assert ("," + rest)[1..] == rest;
  }

  lemma ContinueTwice(start: nat, last: nat, tail: string)
    requires start + 1 == last
    ensures Continue(Interval(start, last), tail) ==
              match Continue([last], tail) case None => None case Some(more) => Some([start] + more)
  {
    assert Interval(start, last) == [start] + [last] by { assert Interval(last, last) == [last]; }
    ContinueConcat([start], [last], tail);
  }

  /** Reading one printed run gives its interval and goes on with what follows it. */
  lemma DecodeSequence(start: nat, last: nat, tail: string)
    requires start <= last && (tail != [] ==> tail[0] == ',')
    ensures Decode(Sequence(start, last) + tail) == Continue(Interval(start, last), tail)
  {
    if start == last {
      DecodeNumber(start, tail);
      assert Interval(start, start) == [start];
    } else if start == last - 1 {
      DecodePair(start, last, tail);
    } else {
      DecodeInterval(start, last, tail);
    }
  }

  lemma ContinueConcat(a: seq<nat>, b: seq<nat>, tail: string)
    ensures Continue(a + b, tail) == match Continue(b, tail) case None => None case Some(more) => Some(a + more)
  {
    if tail != [] && tail[0] == ',' && Decode(tail[1..]).Some? {
      Regroup(a, b, Decode(tail[1..]).value);
    }
  }

  lemma HeadMoves(a: seq<nat>, b: seq<nat>)
    requires b != []
    ensures (a + [b[0]]) + b[1..] == a + b
    ensures [b[0]] + b[1..] == b
  {
  }

  lemma {:induction false} DecodeRanges(start: nat, last: nat, rest: seq<nat>)
    requires start <= last && Increasing(rest) && (rest != [] ==> last < rest[0])
    ensures Decode(Ranges(start, last, rest)) == Some(Interval(start, last) + rest)
    decreases |rest|
  {
    if rest == [] {
      DecodeSequence(start, last, "");
      assert Sequence(start, last) + "" == Sequence(start, last);
      assert Interval(start, last) + rest == Interval(start, last);
    } else if rest[0] == last + 1 {
      DecodeRanges(start, rest[0], rest[1..]);
      IntervalSnoc(start, last);
      HeadMoves(Interval(start, last), rest);
    } else {
      DecodeBreak(start, last, rest);
    }
  }

  /** A gap ends the run: the rest is printed, and read, on its own. */
  lemma {:induction false} DecodeBreak(start: nat, last: nat, rest: seq<nat>)
    requires start <= last && Increasing(rest) && rest != [] && last + 1 < rest[0]
    ensures Decode(Ranges(start, last, rest)) == Some(Interval(start, last) + rest)
    decreases |rest|, 0
  {
    var more := Ranges(rest[0], rest[0], rest[1..]);
    var tail := "," + more;
    DecodeSequence(start, last, tail);
    assert Sequence(start, last) + "," + more == Sequence(start, last) + tail;
    DecodeRanges(rest[0], rest[0], rest[1..]);
    assert Interval(rest[0], rest[0]) == [rest[0]];
    HeadMoves([], rest);
    assert tail[1..] == more;
    assert Decode(more) == Some(rest);
  }

  /** The compressed text lists exactly the printed indices, in order. */
  lemma DecodeFormat(indices: seq<nat>)
    requires Increasing(indices) && indices != []
    ensures Decode(Format(indices)) == Some(indices)
  {
    DecodeRanges(indices[0], indices[0], indices[1..]);
    assert Interval(indices[0], indices[0]) == [indices[0]];
    assert [indices[0]] + indices[1..] == indices;
  }

  lemma SequenceChars(start: nat, last: nat, i: nat)
    requires start <= last && i < |Sequence(start, last)|
    ensures IsDigit(Sequence(start, last)[i]) || Sequence(start, last)[i] == ',' || Sequence(start, last)[i] == '.'
  {
  }

  /** Index text never contains the closing parenthesis that ends it in the header. */
  lemma {:induction false} RangesChars(start: nat, last: nat, rest: seq<nat>, i: nat)
    requires start <= last && i < |Ranges(start, last, rest)|
    ensures var c := Ranges(start, last, rest)[i]; IsDigit(c) || c == ',' || c == '.'
    decreases |rest|
  {
    if rest == [] {
      SequenceChars(start, last, i);
    } else if rest[0] == last + 1 {
      RangesChars(start, rest[0], rest[1..], i);
    } else {
      var n := |Sequence(start, last)|;
      if i < n { SequenceChars(start, last, i); }
      else if i > n { RangesChars(rest[0], rest[0], rest[1..], i - n - 1); }
    }
  }
}

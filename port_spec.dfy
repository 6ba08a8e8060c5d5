/**
 * Port tokens of the command line (src/pync/nc.py): the argparse `type`
 * function `PORT`, which turns one token into a range of ports, and
 * `PortAction`, which merges the ranges of all tokens into one value.
 */
module PortSpec {
  import opened Wrappers

  const MinPort: int := 1
  const MaxPort: int := 65535

  predicate ValidPort(p: int) {
    MinPort <= p <= MaxPort
  }

  /** Python's `range(start, stop)`: the integers start, start + 1, ..., stop - 1. */
  datatype PortRange = PortRange(start: int, stop: int)

  function Ports(r: PortRange): seq<int> {
    seq(if r.start <= r.stop then r.stop - r.start else 0, i => r.start + i)
  }

  // ---------------------------------------------------------------------------
  // Text: str.split and int() on ASCII decimal text
  // ---------------------------------------------------------------------------

  /** Python's `s.split(sep)`: the pieces between the occurrences of `sep`. */
  function Split(s: string, sep: char): (parts: seq<string>)
    ensures |parts| >= 1
    decreases |s|
  {
    if |s| == 0 then [""]
    else
      var rest := Split(s[1..], sep);
      if s[0] == sep then [""] + rest else [[s[0]] + rest[0]] + rest[1..]
  }

  /** `sep.join(parts)`, the inverse of Split. */
  function Join(parts: seq<string>, sep: char): string
    requires |parts| >= 1
  {
    if |parts| == 1 then parts[0] else parts[0] + [sep] + Join(parts[1..], sep)
  }

  lemma SplitThenJoin(s: string, sep: char)
    ensures Join(Split(s, sep), sep) == s
    ensures forall i, j :: 0 <= i < |Split(s, sep)| && 0 <= j < |Split(s, sep)[i]| ==> Split(s, sep)[i][j] != sep
  {
    JoinSplit(s, sep);
    SplitPartsFree(s, sep);
  }

  lemma {:induction false} JoinSplit(s: string, sep: char)
    ensures Join(Split(s, sep), sep) == s
    decreases |s|
  {
    if |s| > 0 {
      var rest := Split(s[1..], sep);
      JoinSplit(s[1..], sep);
      if s[0] != sep && |rest| > 1 {
        assert Join(rest, sep) == rest[0] + [sep] + Join(rest[1..], sep);
      }
    }
  }

  predicate FreeOf(parts: seq<string>, sep: char) {
    forall i, j :: 0 <= i < |parts| && 0 <= j < |parts[i]| ==> parts[i][j] != sep
  }

  lemma {:induction false} SplitPartsFree(s: string, sep: char)
    ensures FreeOf(Split(s, sep), sep)
    decreases |s|
  {
    if |s| > 0 {
      var rest := Split(s[1..], sep);
      SplitPartsFree(s[1..], sep);
      var parts := Split(s, sep);
      if s[0] == sep {
        assert parts == [""] + rest;
        forall i, j | 0 <= i < |parts| && 0 <= j < |parts[i]| ensures parts[i][j] != sep {
          assert i > 0 && parts[i] == rest[i - 1];
        }
      } else {
        forall i, j | 0 <= i < |parts| && 0 <= j < |parts[i]| ensures parts[i][j] != sep {
          if i == 0 {
            assert parts[0] == [s[0]] + rest[0];
            if j > 0 {
              assert parts[0][j] == rest[0][j - 1];
            }
          } else {
            assert parts[i] == rest[i];
          }
        }
      }
    }
  }

  lemma {:induction false} SplitWithoutSeparator(s: string, sep: char)
    requires sep !in s
    ensures Split(s, sep) == [s]
    decreases |s|
  {
    if |s| > 0 {
      assert sep !in s[1..] by { assert forall c :: c in s[1..] ==> c in s; }
      SplitWithoutSeparator(s[1..], sep);
      assert [s[0]] + s[1..] == s;
    }
  }

  lemma {:induction false} SplitAtSeparator(a: string, sep: char, b: string)
    requires sep !in a && sep !in b
    ensures Split(a + [sep] + b, sep) == [a, b]
    decreases |a|
  {
    var s := a + [sep] + b;
    if |a| == 0 {
      assert s[1..] == b;
      SplitWithoutSeparator(b, sep);
    } else {
      assert s[1..] == a[1..] + [sep] + b;
      assert sep !in a[1..] by { assert forall c :: c in a[1..] ==> c in a; }
      SplitAtSeparator(a[1..], sep, b);
      assert [a[0]] + a[1..] == a;
    }
  }

  predicate IsDigit(c: char) {
    '0' <= c <= '9'
  }

  predicate IsSign(c: char) {
    c == '+' || c == '-'
  }

  predicate AllDigits(s: string) {
    forall i :: 0 <= i < |s| ==> IsDigit(s[i])
  }

  /** The texts `int()` accepts here: an optional sign followed by at least one digit. */
  predicate IntegerText(s: string) {
    if |s| > 0 && IsSign(s[0]) then |s| > 1 && AllDigits(s[1..]) else |s| > 0 && AllDigits(s)
  }

  function DigitsValue(s: string): nat
    requires AllDigits(s)
    decreases |s|
  {
    if |s| == 0 then 0 else 10 * DigitsValue(s[..|s| - 1]) + (s[|s| - 1] as int - '0' as int)
  }

  /** Python's `int(s)`: None stands for the ValueError it raises. */
  function ParseInt(s: string): (r: Option<int>)
    ensures r.Some? <==> IntegerText(s)
    ensures r.Some? ==> forall i :: 0 < i < |s| ==> IsDigit(s[i])
    ensures r.Some? && s[0] == '-' ==> r.value <= 0
    ensures r.Some? && s[0] != '-' ==> r.value >= 0
  {
    if !IntegerText(s) then None
    else if s[0] == '-' then Some(-(DigitsValue(s[1..]) as int))
    else if s[0] == '+' then Some(DigitsValue(s[1..]))
    else Some(DigitsValue(s))
  }

  /** `str(n)` for a natural number: its decimal digits without leading zeros. */
  function Decimal(n: nat): string
    decreases n
  {
    if n < 10 then [('0' as int + n) as char] else Decimal(n / 10) + [('0' as int + n % 10) as char]
  }

  /** `str(n)` for any integer. */
  function IntText(n: int): string {
    if n < 0 then "-" + Decimal(-n) else Decimal(n)
  }

  lemma {:induction false} DecimalDigits(n: nat)
    ensures |Decimal(n)| > 0 && AllDigits(Decimal(n)) && DigitsValue(Decimal(n)) == n
    decreases n
  {
    if n >= 10 {
      DecimalDigits(n / 10);
      var s := Decimal(n);
      assert s[..|s| - 1] == Decimal(n / 10);
    }
  }

  /** int(str(n)) == n: the parser reads back every integer's text. */
  lemma IntTextRoundTrip(n: int)
    ensures ParseInt(IntText(n)) == Some(n)
    ensures n >= 0 ==> '-' !in IntText(n)
  {
    DecimalDigits(if n < 0 then -n else n);
    if n < 0 {
      assert IntText(n)[1..] == Decimal(-n);
    }
  }

  // ---------------------------------------------------------------------------
  // PORT
  // ---------------------------------------------------------------------------

  /** What `PORT` hands back: a range, or the ValueError argparse reports as an invalid PORT value. */
  datatype ParseResult = Parsed(range: PortRange) | InvalidPort

  /**
   * `PORT(value)`: a token `low-high` (both bounds integers) gives an inclusive range whose
   * bounds are swapped when given in reverse and then both checked; any other token must
   * be a single integer, giving a one-port range.
   */
  function ParsePort(value: string): (r: ParseResult)
    ensures r.Parsed? ==> ValidPort(r.range.start) && ValidPort(r.range.stop - 1)
    ensures r.Parsed? ==> r.range.start < r.range.stop
  {
    var parts := Split(value, '-');
    if |parts| == 2 && ParseInt(parts[0]).Some? && ParseInt(parts[1]).Some? then
      var a, b := ParseInt(parts[0]).value, ParseInt(parts[1]).value;
      var lo, hi := if a > b then b else a, if a > b then a else b;
      if ValidPort(lo) && ValidPort(hi) then Parsed(PortRange(lo, hi + 1)) else InvalidPort
    else
      match ParseInt(value)
      case None => InvalidPort
      case Some(p) => if ValidPort(p) then Parsed(PortRange(p, p + 1)) else InvalidPort
  }

  /** A valid single port p parses to range(p, p + 1), whose only element is p. */
  lemma SinglePortParses(p: int)
    requires ValidPort(p)
    ensures ParsePort(IntText(p)) == Parsed(PortRange(p, p + 1))
    ensures Ports(ParsePort(IntText(p)).range) == [p]
  {
    IntTextRoundTrip(p);
    SplitWithoutSeparator(IntText(p), '-');
  }

  /** Any integer outside 1..65535 is rejected, negative ones included. */
  lemma OutOfRangeRejected(n: int)
    requires !ValidPort(n)
    ensures ParsePort(IntText(n)) == InvalidPort
  {
    IntTextRoundTrip(n);
    if n < 0 {
      NegativeRejected(n);
    } else {
      SplitWithoutSeparator(IntText(n), '-');
    }
  }

  /** "-d" splits into "" and "d", and "" is no integer, so PORT falls back to int("-d") < 1. */
  lemma NegativeRejected(n: int)
    requires n < 0
    ensures ParsePort(IntText(n)) == InvalidPort
  {
    var v := IntText(n);
    IntTextRoundTrip(n);
    DecimalDigits(-n);
    assert '-' !in Decimal(-n);
    assert v == "" + ['-'] + Decimal(-n);
    SplitAtSeparator("", '-', Decimal(-n));
    var parts := Split(v, '-');
    assert parts == ["", Decimal(-n)];
    assert ParseInt(parts[0]).None?;
    assert ParseInt(v) == Some(n) && !ValidPort(n);
  }

  /** "a-b" gives range(min(a, b), max(a, b) + 1) when both bounds are ports, and is rejected otherwise. */
  lemma RangeParses(a: nat, b: nat)
    ensures ParsePort(Decimal(a) + "-" + Decimal(b))
         == if ValidPort(a) && ValidPort(b)
            then Parsed(PortRange(if a < b then a else b, (if a < b then b else a) + 1))
            else InvalidPort
  {
    IntTextRoundTrip(a);
    IntTextRoundTrip(b);
    SplitAtSeparator(Decimal(a), '-', Decimal(b));
  }

  /** Swapping the two halves of a range token never changes what PORT returns. */
  lemma RangeSymmetric(a: string, b: string)
    requires '-' !in a && '-' !in b
    ensures ParsePort(a + "-" + b) == ParsePort(b + "-" + a)
  {
    SplitAtSeparator(a, '-', b);
    SplitAtSeparator(b, '-', a);
    var ab, ba := a + "-" + b, b + "-" + a;
    if !(ParseInt(a).Some? && ParseInt(b).Some?) {
      // Neither token is a range; a dash past the first character is no integer, and a
      // leading dash makes the integer negative.
      assert ab[|a|] == '-' && ba[|b|] == '-';
      if ParseInt(ab).Some? {
        assert |a| == 0;
      }
      if ParseInt(ba).Some? {
        assert |b| == 0;
      }
    }
  }

  /** A character that is neither a digit nor a sign anywhere in the token makes PORT reject it. */
  lemma NonNumericRejected(value: string, i: int)
    requires 0 <= i < |value| && !IsDigit(value[i]) && !IsSign(value[i])
    ensures ParsePort(value) == InvalidPort
  {
    var parts := Split(value, '-');
    SplitThenJoin(value, '-');
    if |parts| == 2 {
      assert Join(parts[1..], '-') == parts[1];
      assert value == parts[0] + ['-'] + parts[1];
      if i < |parts[0]| {
        assert parts[0][i] == value[i];
      } else {
        assert parts[1][i - |parts[0]| - 1] == value[i];
      }
    }
  }

  // ---------------------------------------------------------------------------
  // PortAction
  // ---------------------------------------------------------------------------

  /** The value PortAction stores: a plain int, or the chained ports of all ranges. */
  datatype PortArg = Single(port: int) | Chain(ports: seq<int>)

  /** `itertools.chain(*ranges)`. */
  function Flatten(rs: seq<PortRange>): seq<int> {
    if |rs| == 0 then [] else Ports(rs[0]) + Flatten(rs[1..])
  }

  /** Places x before the first range whose start is not smaller, so equal starts keep their order. */
  function InsertByStart(x: PortRange, rs: seq<PortRange>): seq<PortRange> {
    if |rs| == 0 || x.start <= rs[0].start then [x] + rs else [rs[0]] + InsertByStart(x, rs[1..])
  }

  /** `sorted(rs, key=lambda r: r.start)`, a stable sort. */
  function SortByStart(rs: seq<PortRange>): seq<PortRange> {
    if |rs| == 0 then [] else InsertByStart(rs[0], SortByStart(rs[1..]))
  }

  predicate SortedByStart(rs: seq<PortRange>) {
    forall i, j :: 0 <= i < j < |rs| ==> rs[i].start <= rs[j].start
  }

  /** The ranges of rs that start at k, in their order in rs. */
  function StartingAt(rs: seq<PortRange>, k: int): seq<PortRange> {
    if |rs| == 0 then [] else (if rs[0].start == k then [rs[0]] else []) + StartingAt(rs[1..], k)
  }

  lemma {:induction false} InsertByStartBound(x: PortRange, rs: seq<PortRange>, b: int)
    requires b <= x.start && forall i :: 0 <= i < |rs| ==> b <= rs[i].start
    ensures forall i :: 0 <= i < |InsertByStart(x, rs)| ==> b <= InsertByStart(x, rs)[i].start
    decreases |rs|
  {
    if |rs| > 0 && x.start > rs[0].start {
      InsertByStartBound(x, rs[1..], b);
    }
  }

  lemma {:induction false} InsertByStartSorted(x: PortRange, rs: seq<PortRange>)
    requires SortedByStart(rs)
    ensures SortedByStart(InsertByStart(x, rs))
    decreases |rs|
  {
    if |rs| > 0 && x.start > rs[0].start {
      var tail := rs[1..];
      InsertByStartSorted(x, tail);
      InsertByStartBound(x, tail, rs[0].start);
    }
  }

  lemma {:induction false} InsertByStartPermutes(x: PortRange, rs: seq<PortRange>)
    ensures multiset(InsertByStart(x, rs)) == multiset{x} + multiset(rs)
    decreases |rs|
  {
    if |rs| > 0 && x.start > rs[0].start {
      InsertByStartPermutes(x, rs[1..]);
      assert rs == [rs[0]] + rs[1..];
    }
  }

  lemma {:induction false} InsertByStartPorts(x: PortRange, rs: seq<PortRange>)
    ensures multiset(Flatten(InsertByStart(x, rs))) == multiset(Ports(x)) + multiset(Flatten(rs))
    decreases |rs|
  {
    if |rs| > 0 && x.start > rs[0].start {
      InsertByStartPorts(x, rs[1..]);
      assert ([rs[0]] + InsertByStart(x, rs[1..]))[1..] == InsertByStart(x, rs[1..]);
    } else {
      assert ([x] + rs)[1..] == rs;
    }
  }

  lemma {:induction false} InsertByStartStable(x: PortRange, rs: seq<PortRange>, k: int)
    ensures StartingAt(InsertByStart(x, rs), k) == (if x.start == k then [x] else []) + StartingAt(rs, k)
    decreases |rs|
  {
    if |rs| > 0 && x.start > rs[0].start {
      var ins := InsertByStart(x, rs[1..]);
      InsertByStartStable(x, rs[1..], k);
      assert ([rs[0]] + ins)[1..] == ins;
    } else {
      assert ([x] + rs)[1..] == rs;
    }
  }

  /** The sort orders the ranges by start, is a permutation, and keeps equal starts in input order. */
  lemma {:induction false} SortByStartFacts(rs: seq<PortRange>)
    ensures SortedByStart(SortByStart(rs))
    ensures multiset(SortByStart(rs)) == multiset(rs)
    ensures multiset(Flatten(SortByStart(rs))) == multiset(Flatten(rs))
    ensures forall k :: StartingAt(SortByStart(rs), k) == StartingAt(rs, k)
  {
    if |rs| > 0 {
      SortByStartFacts(rs[1..]);
      InsertByStartSorted(rs[0], SortByStart(rs[1..]));
      InsertByStartPermutes(rs[0], SortByStart(rs[1..]));
      InsertByStartPorts(rs[0], SortByStart(rs[1..]));
      forall k ensures StartingAt(SortByStart(rs), k) == StartingAt(rs, k) {
        InsertByStartStable(rs[0], SortByStart(rs[1..]), k);
      }
      assert rs == [rs[0]] + rs[1..];
    }
  }

  /** `PortAction`: one token covering one port collapses to that port; otherwise the ranges are sorted by start and chained. */
  function Merge(values: seq<PortRange>): (arg: PortArg)
    ensures arg.Single? ==> Flatten(values) == [arg.port]
    ensures arg.Chain? ==> multiset(arg.ports) == multiset(Flatten(values))
  {
    if |values| == 1 && values[0].start == values[0].stop - 1 then
      assert values[1..] == [];
      Single(values[0].start)
    else
      SortByStartFacts(values);
      Chain(Flatten(SortByStart(values)))
  }

  lemma {:induction false} FlattenLength(rs: seq<PortRange>)
    requires forall i :: 0 <= i < |rs| ==> rs[i].start < rs[i].stop
    ensures |Flatten(rs)| >= |rs|
  {
    if |rs| > 0 {
      FlattenLength(rs[1..]);
    }
  }

  /**
   * For ranges PORT produced, PortAction stores a plain int exactly when all tokens together
   * name one port: a single one-port token, never two tokens and never a wider range.
   */
  lemma MergeCollapsesIffOnePort(values: seq<PortRange>)
    requires forall i :: 0 <= i < |values| ==> values[i].start < values[i].stop
    ensures Merge(values).Single? <==> |Flatten(values)| == 1
  {
    FlattenLength(values);
    if |values| == 1 {
      assert values[1..] == [];
    }
  }

  /** The ports a client iterates over: a plain int becomes a one-element list (NetcatClient.__init__). */
  function PortList(arg: PortArg): seq<int> {
    match arg
    case Single(p) => [p]
    case Chain(ps) => ps
  }

  /**
   * The whole `port` argument (nargs='+'): PORT on every token, a usage error on the first
   * invalid one, then PortAction.
   */
  function ParsePortArgs(tokens: seq<string>): (r: Option<PortArg>)
    ensures r.Some? <==> |tokens| >= 1 && forall i :: 0 <= i < |tokens| ==> ParsePort(tokens[i]).Parsed?
    ensures r.Some? ==> forall p :: p in PortList(r.value) ==> ValidPort(p)
  {
    if |tokens| >= 1 && forall i :: 0 <= i < |tokens| ==> ParsePort(tokens[i]).Parsed? then
      var values := seq(|tokens|, i requires 0 <= i < |tokens| => ParsePort(tokens[i]).range);
      FlattenValid(values);
      MergeKeepsPorts(values);
      Some(Merge(values))
    else
      None
  }

  lemma MergeKeepsPorts(values: seq<PortRange>)
    ensures forall p :: p in PortList(Merge(values)) <==> p in Flatten(values)
  {
    var m := Merge(values);
    forall p ensures p in PortList(m) <==> p in Flatten(values) {
      assert p in PortList(m) <==> p in multiset(PortList(m));
      assert p in Flatten(values) <==> p in multiset(Flatten(values));
    }
  }

  lemma {:induction false} FlattenValid(rs: seq<PortRange>)
    requires forall i :: 0 <= i < |rs| ==> ValidPort(rs[i].start) && ValidPort(rs[i].stop - 1)
    ensures forall p :: p in Flatten(rs) ==> ValidPort(p)
  {
    if |rs| > 0 {
      FlattenValid(rs[1..]);
    }
  }
}

/** The watchpoint table of the trace unit as trc_fs_cfg_trace.sh builds and writes it. */
module Watchpoints {
  import opened CtCsr
  import opened Wrappers

  const SLOTS := 15
  const TABLE_BASE: nat := 0xa0904100
  const NO_COMMAND: Word := 0
  const FULL_MASK: Word := 0xffff_ffff
  const KEY_WIDTH := 10
  const MAX_RETRIES: nat := 8

  /** One PC:CMD argument, both 32 bits wide. */
  type Word = x: nat | x < 0x1_0000_0000
  datatype Pair = Pair(pc: Word, cmd: Word)

  // ---------------------------------------------------------------------------------------------
  // Sort keys: zero-padded decimals compared as text
  // ---------------------------------------------------------------------------------------------

  function Digit(d: nat): char
    requires d < 10
  {
    (48 + d) as char
  }

  /** The last w decimal digits of n. */
  function Pad(n: nat, w: nat): (s: string)
    ensures |s| == w
    decreases w
  {
    if w == 0 then "" else Pad(n / 10, w - 1) + [Digit(n % 10)]
  }

  /** One digit more shows the last decimal digit behind the others. */
  lemma PadDigits(n: nat, w: nat)
    ensures Pad(n, w + 1) == Pad(n / 10, w) + ["0123456789"[n % 10]]
    ensures Pad(n, 0) == ""
  {
    var d := n % 10;
    assert Digit(d) == "0123456789"[d];
  }

  function Key(p: Pair): (k: string)
    ensures |k| == KEY_WIDTH
  {
    Pad(p.pc, KEY_WIDTH)
  }

  function Power10(w: nat): (p: nat)
    ensures p > 0
  {
    if w == 0 then 1 else 10 * Power10(w - 1)
  }

  predicate TextBefore(a: string, b: string) {
    if a == [] then b != [] else b != [] && (a[0] < b[0] || (a[0] == b[0] && TextBefore(a[1..], b[1..])))
  }

  lemma {:induction false} TextBeforeSnoc(a: string, b: string, c: char, d: char)
    requires |a| == |b|
    ensures TextBefore(a + [c], b + [d]) <==> TextBefore(a, b) || (a == b && c < d)
  {
    if a == [] {
      assert TextBefore([c][1..], [d][1..]) == false;
    } else {
      assert (a + [c])[1..] == a[1..] + [c] && (b + [d])[1..] == b[1..] + [d];
      TextBeforeSnoc(a[1..], b[1..], c, d);
      assert a == [a[0]] + a[1..] && b == [b[0]] + b[1..];
    }
  }

  lemma {:induction false} PadInjective(m: nat, n: nat, w: nat)
    requires m < Power10(w) && n < Power10(w)
    ensures Pad(m, w) == Pad(n, w) <==> m == n
  {
    if w > 0 {
      PadInjective(m / 10, n / 10, w - 1);
      var s, t := Pad(m, w), Pad(n, w);
      assert s[..w - 1] == Pad(m / 10, w - 1) && t[..w - 1] == Pad(n / 10, w - 1);
      assert s[w - 1] == Digit(m % 10) && t[w - 1] == Digit(n % 10);
    }
  }

  /** Sorting zero-padded decimals of one width as text sorts the numbers. */
  lemma {:induction false} TextOrderIsNumeric(m: nat, n: nat, w: nat)
    requires m < Power10(w) && n < Power10(w)
    ensures TextBefore(Pad(m, w), Pad(n, w)) <==> m < n
  {
    if w > 0 {
      TextOrderIsNumeric(m / 10, n / 10, w - 1);
      PadInjective(m / 10, n / 10, w - 1);
      TextBeforeSnoc(Pad(m / 10, w - 1), Pad(n / 10, w - 1), Digit(m % 10), Digit(n % 10));
    }
  }

  lemma AddressesFit(p: Pair)
    ensures p.pc < Power10(KEY_WIDTH)
  {
    assert Power10(5) == 100_000;
    assert Power10(10) == 100_000 * Power10(5);
  }

  // ---------------------------------------------------------------------------------------------
  // Sorting the rows
  // ---------------------------------------------------------------------------------------------

  /** Rows are compared by key; equal keys, which are rejected afterwards, by command. */
  predicate RowLeq(p: Pair, q: Pair) {
    TextBefore(Key(p), Key(q)) || (Key(p) == Key(q) && p.cmd <= q.cmd)
  }

  lemma RowOrderIsNumeric(p: Pair, q: Pair)
    ensures RowLeq(p, q) <==> p.pc < q.pc || (p.pc == q.pc && p.cmd <= q.cmd)
    ensures Key(p) == Key(q) <==> p.pc == q.pc
  {
    AddressesFit(p);
    AddressesFit(q);
    TextOrderIsNumeric(p.pc, q.pc, KEY_WIDTH);
    PadInjective(p.pc, q.pc, KEY_WIDTH);
  }

  function Insert(p: Pair, rows: seq<Pair>): seq<Pair> {
    if rows == [] || RowLeq(p, rows[0]) then [p] + rows else [rows[0]] + Insert(p, rows[1..])
  }

  function Sort(rows: seq<Pair>): (s: seq<Pair>) {
    if rows == [] then [] else Insert(rows[0], Sort(rows[1..]))
  }

  predicate NumericLeq(p: Pair, q: Pair) { p.pc < q.pc || (p.pc == q.pc && p.cmd <= q.cmd) }

  predicate Ordered(rows: seq<Pair>) { forall i, j :: 0 <= i < j < |rows| ==> NumericLeq(rows[i], rows[j]) }

  lemma OrderedCons(p: Pair, rows: seq<Pair>)
    requires Ordered(rows) && forall q :: q in rows ==> NumericLeq(p, q)
    ensures Ordered([p] + rows)
  {
  }

  lemma {:induction false} InsertKeeps(p: Pair, rows: seq<Pair>)
    ensures multiset(Insert(p, rows)) == multiset(rows) + multiset{p}
    decreases |rows|
  {
    hide RowLeq;
    if rows != [] {
      assert rows == [rows[0]] + rows[1..];
      if !RowLeq(p, rows[0]) {
        InsertKeeps(p, rows[1..]);
      }
    }
  }

  lemma {:induction false} InsertMembers(p: Pair, rows: seq<Pair>)
    ensures forall q :: q in Insert(p, rows) <==> q == p || q in rows
    decreases |rows|
  {
    hide RowLeq;
    if rows != [] && !RowLeq(p, rows[0]) {
      InsertMembers(p, rows[1..]);
    }
  }

  lemma {:induction false} InsertOrders(p: Pair, rows: seq<Pair>)
    requires Ordered(rows)
    ensures Ordered(Insert(p, rows))
    decreases |rows|
  {
    hide RowLeq;
    if rows != [] {
      RowOrderIsNumeric(p, rows[0]);
      if RowLeq(p, rows[0]) {
        OrderedCons(p, rows);
      } else {
        InsertOrders(p, rows[1..]);
        InsertMembers(p, rows[1..]);
        OrderedCons(rows[0], Insert(p, rows[1..]));
      }
    }
  }

  lemma NothingOrdered()
    ensures Ordered([])
  {
  }

  /** The text sort puts the rows in numeric order and keeps every one of them. */
  lemma {:induction false} SortOrders(rows: seq<Pair>)
    ensures Ordered(Sort(rows)) && multiset(Sort(rows)) == multiset(rows)
    ensures |Sort(rows)| == |rows|
    decreases |rows|
  {
    hide Ordered, Insert;
    if rows == [] {
      NothingOrdered();
    }
    if rows != [] {
      SortOrders(rows[1..]);
      InsertOrders(rows[0], Sort(rows[1..]));
      InsertKeeps(rows[0], Sort(rows[1..]));
      assert rows == [rows[0]] + rows[1..];
    }
    assert |multiset(Sort(rows))| == |multiset(rows)|;
  }

  lemma SortLength(rows: seq<Pair>)
    ensures |Sort(rows)| == |rows|
  {
    SortOrders(rows);
  }

  lemma FirstLeq(s: seq<Pair>, t: seq<Pair>)
    requires Ordered(s) && multiset(s) == multiset(t) && t != []
    ensures s != [] && (s[0] == t[0] || NumericLeq(s[0], t[0]))
  {
    assert t[0] in multiset(s);
  }

  lemma SameTails(s: seq<Pair>, t: seq<Pair>)
    requires s != [] && t != [] && s[0] == t[0] && multiset(s) == multiset(t)
    ensures multiset(s[1..]) == multiset(t[1..])
  {
    assert s == [s[0]] + s[1..] && t == [t[0]] + t[1..];
    assert multiset(s[1..]) == multiset(s) - multiset{s[0]};
    assert multiset(t[1..]) == multiset(t) - multiset{t[0]};
  }

  lemma OrderedTail(s: seq<Pair>)
    requires Ordered(s) && s != []
    ensures Ordered(s[1..])
  {
  }

  lemma LeqBothWays(p: Pair, q: Pair)
    requires NumericLeq(p, q) && NumericLeq(q, p)
    ensures p == q
  {
  }

  /** There is only one sorted arrangement of the rows, whatever sorting algorithm finds it. */
  lemma {:induction false} OrderedUnique(s: seq<Pair>, t: seq<Pair>)
    requires Ordered(s) && Ordered(t) && multiset(s) == multiset(t)
    ensures s == t
    decreases |s|
  {
    hide Ordered, NumericLeq;
    assert |multiset(s)| == |s| && |multiset(t)| == |t|;
    if s != [] {
      FirstLeq(s, t);
      FirstLeq(t, s);
      if s[0] != t[0] {
        LeqBothWays(s[0], t[0]);
      }
      SameTails(s, t);
      OrderedTail(s);
      OrderedTail(t);
      OrderedUnique(s[1..], t[1..]);
    }
  }

  // ---------------------------------------------------------------------------------------------
  // The checks before anything is written
  // ---------------------------------------------------------------------------------------------

  datatype Outcome = Table(rows: seq<Pair>) | TooMany | Duplicate | TooLow

  function Keys(rows: seq<Pair>): (ks: seq<string>)
    ensures |ks| == |rows| && forall i :: 0 <= i < |rows| ==> ks[i] == Key(rows[i])
  {
    seq(|rows|, i requires 0 <= i < |rows| => Key(rows[i]))
  }

  /** How many lines are left once repeats of the line before are dropped; no row at all still prints one blank line. */
  function UniqueLines(ks: seq<string>): (n: nat)
    ensures ks != [] ==> n <= |ks|
  {
    if |ks| <= 1 then 1 else (if ks[0] == ks[1] then 0 else 1) + UniqueLines(ks[1..])
  }

  function Value(c: char): nat { if '0' <= c <= '9' then c as nat - 48 else 0 }

  /** The shell reads a numeral with a leading zero as octal; a digit 8 or 9 makes the expression an error. */
  function Octal(s: string): Option<nat> {
    if s == "" then Some(0) else OctalDigit(Octal(s[..|s| - 1]), Value(s[|s| - 1]))
  }

  function OctalDigit(rest: Option<nat>, d: nat): Option<nat> {
    if rest.None? || d >= 8 then None else Some(8 * rest.value + d)
  }

  function Decimal(s: string): nat {
    if s == "" then 0 else 10 * Decimal(s[..|s| - 1]) + Value(s[|s| - 1])
  }

  function ShellNumber(s: string): Option<nat>
    requires s != ""
  {
    if s[0] == '0' then Octal(s) else Some(Decimal(s))
  }

  /** An arithmetic error makes the condition false, so the check then lets the table pass. */
  predicate RejectsSmallest(maxSentinel: nat, key: string)
    requires key != ""
  {
    var smallest := ShellNumber(key);
    smallest.Some? && maxSentinel >= smallest.value
  }

  /** Odd addresses, which no fetch matches, fill the slots in front of the rows. */
  function Sentinels(n: nat): (rows: seq<Pair>)
    requires n <= SLOTS
    ensures |rows| == n
  {
    seq(n, i requires 0 <= i < n => Pair(2 * i + 1, NO_COMMAND))
  }

  function MaxSentinel(n: nat): nat
    requires 0 < n <= SLOTS
  {
    2 * n - 1
  }

  function Build(pairs: seq<Pair>): Outcome {
    SortOrders(pairs);
    var rows := Sort(pairs);
    if |pairs| > SLOTS then TooMany
    else if UniqueLines(Keys(rows)) != |rows| then Duplicate
    else
      var n := SLOTS - |rows|;
      if n > 0 && |rows| > 0 && RejectsSmallest(MaxSentinel(n), Key(rows[0])) then TooLow
      else Table(Sentinels(n) + rows)
  }

  predicate Distinct(pairs: seq<Pair>) { forall i, j :: 0 <= i < j < |pairs| ==> pairs[i].pc != pairs[j].pc }

  predicate Ascending(rows: seq<Pair>) { forall i, j :: 0 <= i < j < |rows| ==> rows[i].pc < rows[j].pc }

  lemma {:induction false} UniqueIffAscending(rows: seq<Pair>)
    requires Ordered(rows)
    ensures UniqueLines(Keys(rows)) == |rows| <==> rows != [] && Ascending(rows)
    decreases |rows|
  {
    hide Key;
    if |rows| >= 2 {
      RowOrderIsNumeric(rows[0], rows[1]);
      assert Keys(rows)[1..] == Keys(rows[1..]);
      UniqueIffAscending(rows[1..]);
      AscendingTail(rows);
    }
  }

  lemma AscendingTail(rows: seq<Pair>)
    requires |rows| >= 2
    ensures Ascending(rows) <==> rows[0].pc < rows[1].pc && Ascending(rows[1..])
  {
    if rows[0].pc < rows[1].pc && Ascending(rows[1..]) {
      forall i, j | 0 <= i < j < |rows|
        ensures rows[i].pc < rows[j].pc
      {
        assert rows[1] == rows[1..][0] && rows[j] == rows[1..][j - 1];
        if i > 0 {
          assert rows[i] == rows[1..][i - 1];
        }
      }
    }
    if Ascending(rows) {
      var tail := rows[1..];
      forall i, j | 0 <= i < j < |tail|
        ensures tail[i].pc < tail[j].pc
      {
        assert tail[i] == rows[i + 1] && tail[j] == rows[j + 1];
      }
    }
  }

  lemma {:induction false} DistinctByCount(pairs: seq<Pair>, rows: seq<Pair>)
    requires multiset(pairs) == multiset(rows)
    ensures Distinct(pairs) ==> Distinct(rows)
  {
    if Distinct(pairs) {
      forall i, j | 0 <= i < j < |rows|
        ensures rows[i].pc != rows[j].pc
      {
        if rows[i].pc == rows[j].pc {
          TwoPlaces(pairs, rows, i, j);
        }
      }
    }
  }

  lemma TwoPlaces(pairs: seq<Pair>, rows: seq<Pair>, i: nat, j: nat)
    requires multiset(pairs) == multiset(rows) && i < j < |rows| && rows[i].pc == rows[j].pc
    ensures !Distinct(pairs)
  {
    var p, q := rows[i], rows[j];
    assert p in multiset(pairs) && q in multiset(pairs);
    if p == q {
      assert rows == rows[..i] + [p] + rows[i + 1..j] + [q] + rows[j + 1..];
      assert multiset(rows)[p] >= 2;
      RepeatedPlaces(pairs, p);
    } else {
      var k, l :| 0 <= k < |pairs| && 0 <= l < |pairs| && pairs[k] == p && pairs[l] == q;
      assert k < l || l < k;
    }
  }

  lemma {:induction false} RepeatedPlaces(pairs: seq<Pair>, p: Pair)
    requires multiset(pairs)[p] >= 2
    ensures !Distinct(pairs)
    decreases |pairs|
  {
    assert pairs == [pairs[0]] + pairs[1..];
    if pairs[0] == p {
      assert p in multiset(pairs[1..]);
      var k :| 0 <= k < |pairs[1..]| && pairs[1..][k] == p;
      assert pairs[k + 1].pc == pairs[0].pc;
    } else {
      RepeatedPlaces(pairs[1..], p);
      var tail := pairs[1..];
      var i, j :| 0 <= i < j < |tail| && tail[i].pc == tail[j].pc;
      assert pairs[i + 1].pc == pairs[j + 1].pc;
    }
  }

  /** Up to fifteen pairs are called duplicates exactly when two of them share a PC, or there is none. */
  lemma DuplicateIffShared(pairs: seq<Pair>)
    requires |pairs| <= SLOTS
    ensures Build(pairs).Duplicate? <==> pairs == [] || !Distinct(pairs)
  {
    SortOrders(pairs);
    UniqueIffAscending(Sort(pairs));
    DistinctByCount(pairs, Sort(pairs));
    DistinctByCount(Sort(pairs), pairs);
    DistinctIffAscending(Sort(pairs));
    hide Sort, UniqueLines, Keys, Key, Ordered, Distinct, Ascending, RejectsSmallest, Sentinels;
  }

  lemma DistinctIffAscending(rows: seq<Pair>)
    requires Ordered(rows)
    ensures Distinct(rows) <==> Ascending(rows)
  {
  }

  /** The outcome, the whole table included, does not depend on the order of the arguments. */
  lemma OrderIndependent(pairs: seq<Pair>, others: seq<Pair>)
    requires multiset(pairs) == multiset(others)
    ensures Build(pairs) == Build(others)
  {
    SortOrders(pairs);
    SortOrders(others);
    OrderedUnique(Sort(pairs), Sort(others));
    hide Sort, UniqueLines, Keys, Key, Ordered, RejectsSmallest, Sentinels;
  }

  // ---------------------------------------------------------------------------------------------
  // When the finished table is strictly ascending
  // ---------------------------------------------------------------------------------------------

  function OctalReading(n: nat): Option<nat> {
    if n == 0 then Some(0) else OctalDigit(OctalReading(n / 10), n % 10)
  }

  lemma PadLast(n: nat, w: nat)
    requires w > 0
    ensures Pad(n, w)[..w - 1] == Pad(n / 10, w - 1) && Value(Pad(n, w)[w - 1]) == n % 10
  {
  }

  lemma {:induction false} PadOctal(n: nat, w: nat)
    requires n < Power10(w)
    ensures Octal(Pad(n, w)) == OctalReading(n)
  {
    hide Value, Pad;
    assert OctalReading(n) == OctalDigit(OctalReading(n / 10), n % 10) by { OctalZero(); }
    if w == 0 {
      assert Pad(n, w) == "";
    } else {
      PowerDown(n, w);
      PadOctal(n / 10, w - 1);
      PadLast(n, w);
    }
  }

  lemma OctalZero()
    ensures OctalReading(0) == Some(0) && OctalDigit(Some(0), 0) == Some(0)
  {
  }

  lemma PowerDown(n: nat, w: nat)
    requires w > 0 && n < Power10(w)
    ensures n / 10 < Power10(w - 1)
  {
  }

  lemma NoDigits(n: nat)
    ensures Pad(n, 0) == "" && Power10(0) == 1
  {
  }

  lemma {:induction false} PadDecimal(n: nat, w: nat)
    requires n < Power10(w)
    ensures Decimal(Pad(n, w)) == n
  {
    hide Value, Pad, Power10;
    if w == 0 {
      assert Pad(n, w) == "" && n == 0 by { NoDigits(n); }
    } else {
      PowerDown(n, w);
      PadDecimal(n / 10, w - 1);
      PadLast(n, w);
      assert n == 10 * (n / 10) + n % 10;
    }
  }

  lemma {:induction false} PadFirst(n: nat, w: nat)
    requires 0 < w && n < Power10(w)
    ensures Pad(n, w)[0] == '0' <==> n < Power10(w - 1)
  {
    if w == 1 {
      assert Pad(n, w) == [Digit(n)];
    } else {
      PadFirst(n / 10, w - 1);
      assert Pad(n, w)[0] == Pad(n / 10, w - 1)[0];
    }
  }

  /** How the shell reads a padded key: as octal, unless the number fills the key. */
  lemma KeyReading(p: Pair)
    ensures |Key(p)| == 10
    ensures ShellNumber(Key(p)) == if p.pc < 1_000_000_000 then OctalReading(p.pc) else Some(p.pc)
  {
    assert Power10(KEY_WIDTH - 1) == 1_000_000_000 by {
      assert Power10(4) == 10_000;
      assert Power10(9) == 100_000 * Power10(4);
    }
    hide Octal, Decimal, Power10;
    AddressesFit(p);
    PadOctal(p.pc, KEY_WIDTH);
    PadDecimal(p.pc, KEY_WIDTH);
    PadFirst(p.pc, KEY_WIDTH);
  }

  lemma {:induction false} OctalReadingBounds(n: nat)
    ensures n < 80 ==> OctalReading(n) == if n % 10 < 8 then Some(8 * (n / 10) + n % 10) else None
    ensures OctalReading(n).Some? && n >= 10 ==> OctalReading(n).value >= 8
    ensures OctalReading(n).Some? && n >= 34 ==> OctalReading(n).value >= 28
  {
    if n > 0 {
      OctalReadingBounds(n / 10);
    }
  }

  /** What the check rejects: addresses below 34, each ten counted as eight, and none that ends in 8 or 9. */
  lemma RejectsExactly(maxSentinel: nat, p: Pair)
    requires maxSentinel < 28
    ensures RejectsSmallest(maxSentinel, Key(p)) <==>
            p.pc < 34 && p.pc % 10 < 8 && p.pc - 2 * (p.pc / 10) <= maxSentinel
  {
    hide ShellNumber, Key, OctalReading;
    KeyReading(p);
    OctalReadingBounds(p.pc);
    assert Power10(KEY_WIDTH - 1) >= 100 by {
      assert Power10(5) == 100_000;
      assert Power10(9) == 10_000 * Power10(5);
    }
  }

  predicate Smallest(p: Pair, pairs: seq<Pair>) { p in pairs && forall q :: q in pairs ==> p.pc <= q.pc }

  lemma SmallestIsFirst(p: Pair, pairs: seq<Pair>)
    requires Smallest(p, pairs)
    ensures Sort(pairs) != [] && Sort(pairs)[0].pc == p.pc
  {
    SortOrders(pairs);
    var rows := Sort(pairs);
    assert p in multiset(rows) && rows[0] in multiset(pairs);
  }

  lemma TableAscends(n: nat, rows: seq<Pair>)
    requires n <= SLOTS && rows != [] && Ascending(rows)
    ensures Ascending(Sentinels(n) + rows) <==> n == 0 || 2 * n - 1 < rows[0].pc
  {
    var t := Sentinels(n) + rows;
    if n > 0 {
      assert t[n - 1].pc == 2 * n - 1 && t[n] == rows[0];
    }
  }

  /** Distinct addresses get past the first two checks, and their rows ascend from the smallest. */
  lemma RowsAscend(pairs: seq<Pair>, p: Pair)
    requires 1 <= |pairs| <= SLOTS && Distinct(pairs) && Smallest(p, pairs)
    ensures var rows, n := Sort(pairs), SLOTS - |pairs|;
            && |rows| == |pairs| && Ascending(rows) && rows[0].pc == p.pc
            && Build(pairs) == if n > 0 && RejectsSmallest(MaxSentinel(n), Key(rows[0])) then TooLow
                               else Table(Sentinels(n) + rows)
  {
    hide Sort, UniqueLines, Key, Ordered, Ascending, Distinct, Smallest, RejectsSmallest, Sentinels;
    SortOrders(pairs);
    DuplicateIffShared(pairs);
    DistinctByCount(pairs, Sort(pairs));
    DistinctIffAscending(Sort(pairs));
    SmallestIsFirst(p, pairs);
  }

  /** What becomes of any 1 to 15 distinct addresses, by the smallest of them and the number of free slots. The check
      does its work for every smallest address from 34 on. Below, a table that passes is strictly ascending unless the
      smallest address is one of 8, 9, 18 and 19 and not above the last sentinel. */
  lemma AscendingExactly(pairs: seq<Pair>, p: Pair)
    requires 1 <= |pairs| <= 15 && Distinct(pairs) && Smallest(p, pairs)
    ensures var n := 15 - |pairs|;
            && (Build(pairs).TooLow? <==> n > 0 && p.pc < 34 && p.pc % 10 < 8 && p.pc - 2 * (p.pc / 10) <= 2 * n - 1)
            && (Build(pairs).Table? <==> !Build(pairs).TooLow?)
            && (Build(pairs).Table? ==>
                  && |Build(pairs).rows| == 15
                  && (Ascending(Build(pairs).rows) <==> !(p.pc in {8, 9, 18, 19} && p.pc <= 2 * n - 1)))
  {
    hide Build, Sort, UniqueLines, Keys, Key, Ascending, Distinct, Smallest, RejectsSmallest;
    RowsAscend(pairs, p);
    var rows, n := Sort(pairs), SLOTS - |pairs|;
    TableAscends(n, rows);
    if n > 0 {
      RejectsExactly(MaxSentinel(n), rows[0]);
    }
  }

  /** The slots of an accepted table: sentinels 1, 3, 5, ... without a command, and then all the given pairs. */
  lemma TableRows(pairs: seq<Pair>)
    requires Build(pairs).Table?
    ensures var rows, n := Build(pairs).rows, 15 - |pairs|;
            && n >= 0 && |rows| == 15
            && (forall k :: 0 <= k < n ==> rows[k].pc == 2 * k + 1 && rows[k].cmd == 0)
            && multiset(rows[n..]) == multiset(pairs)
  {
    hide Sort, UniqueLines, Keys, Key, RejectsSmallest, Ordered;
    SortOrders(pairs);
    assert Build(pairs).rows[15 - |pairs|..] == Sort(pairs);
  }

  lemma TooManyIffOver15(pairs: seq<Pair>)
    ensures Build(pairs).TooMany? <==> |pairs| > 15
  {
    hide Sort, UniqueLines, Keys, Key, RejectsSmallest, Ordered;
  }

  /** The leading zeros do matter: a lone watchpoint at address 8 passes, and its slot comes after 27. */
  lemma PaddedEightPasses(cmd: Word)
    ensures Build([Pair(8, cmd)]).Table? && !Ascending(Build([Pair(8, cmd)]).rows)
  {
    AscendingExactly([Pair(8, cmd)], Pair(8, cmd));
  }

  // ---------------------------------------------------------------------------------------------
  // Looking up a fetch address
  // ---------------------------------------------------------------------------------------------

  /** The commands of all slots that hold this address, in slot order. */
  function Matches(rows: seq<Pair>, pc: nat): seq<nat> {
    if rows == [] then []
    else (if rows[0].pc == pc then [rows[0].cmd] else []) + Matches(rows[1..], pc)
  }

  lemma MatchesCons(row: Pair, rows: seq<Pair>, pc: nat)
    ensures Matches([row] + rows, pc) == (if row.pc == pc then [row.cmd] else []) + Matches(rows, pc)
  {
    assert ([row] + rows)[1..] == rows;
  }

  lemma {:induction false} MatchesAppend(rows: seq<Pair>, more: seq<Pair>, pc: nat)
    ensures Matches(rows + more, pc) == Matches(rows, pc) + Matches(more, pc)
    decreases |rows|
  {
    if rows == [] {
      assert rows + more == more;
    } else {
      hide Matches;
      var tail := rows[1..];
      MatchesAppend(tail, more, pc);
      MatchesCons(rows[0], tail, pc);
      MatchesCons(rows[0], tail + more, pc);
      assert rows == [rows[0]] + tail && rows + more == [rows[0]] + (tail + more);
    }
  }

  lemma {:induction false} NoMatch(rows: seq<Pair>, pc: nat)
    requires forall q :: q in rows ==> q.pc != pc
    ensures Matches(rows, pc) == []
    decreases |rows|
  {
    if rows != [] {
      NoMatch(rows[1..], pc);
    }
  }

  lemma {:induction false} OneMatch(rows: seq<Pair>, p: Pair)
    requires Distinct(rows) && p in rows
    ensures Matches(rows, p.pc) == [p.cmd]
    decreases |rows|
  {
    var tail := rows[1..];
    forall i, j | 0 <= i < j < |tail|
      ensures tail[i].pc != tail[j].pc
    {
      assert tail[i] == rows[i + 1] && tail[j] == rows[j + 1];
    }
    if p == rows[0] {
      forall q | q in tail
        ensures q.pc != p.pc
      {
        var k :| 0 <= k < |tail| && tail[k] == q;
        assert rows[k + 1] == q;
      }
      NoMatch(tail, p.pc);
    } else {
      var k :| 0 <= k < |rows| && rows[k] == p;
      assert p == tail[k - 1];
      OneMatch(tail, p);
    }
  }

  lemma SentinelsMatchNoFetch(n: nat, pc: nat)
    requires n <= SLOTS && pc % 2 == 0
    ensures Matches(Sentinels(n), pc) == []
  {
    NoMatch(Sentinels(n), pc);
  }

  lemma SortedMatches(pairs: seq<Pair>, pc: nat)
    requires Distinct(pairs)
    ensures forall p :: p in pairs && p.pc == pc ==> Matches(Sort(pairs), pc) == [p.cmd]
    ensures (forall p :: p in pairs ==> p.pc != pc) ==> Matches(Sort(pairs), pc) == []
  {
    hide Matches, Sort, Distinct;
    var rows := Sort(pairs);
    SortOrders(pairs);
    DistinctByCount(pairs, rows);
    SameMembers(pairs, rows);
    forall p | p in pairs && p.pc == pc
      ensures Matches(rows, pc) == [p.cmd]
    {
      OneMatch(rows, p);
    }
    if forall p :: p in pairs ==> p.pc != pc {
      NoMatch(rows, pc);
    }
  }

  lemma SameMembers(pairs: seq<Pair>, rows: seq<Pair>)
    requires multiset(pairs) == multiset(rows)
    ensures forall p :: p in pairs <==> p in rows
  {
    forall p
      ensures p in pairs <==> p in rows
    {
      assert p in multiset(pairs) <==> p in multiset(rows);
    }
  }

  /** A table that passed answers every even address with exactly the command given for it, once, or with none. */
  lemma EvenLookup(pairs: seq<Pair>, pc: nat)
    requires Build(pairs).Table? && pc % 2 == 0
    ensures forall p :: p in pairs && p.pc == pc ==> Matches(Build(pairs).rows, pc) == [p.cmd]
    ensures (forall p :: p in pairs ==> p.pc != pc) ==> Matches(Build(pairs).rows, pc) == []
  {
    hide UniqueLines, Keys, RejectsSmallest, Sort, Matches, Sentinels, Distinct, Key;
    SortOrders(pairs);
    DuplicateIffShared(pairs);
    SortedMatches(pairs, pc);
    SentinelsMatchNoFetch(SLOTS - |pairs|, pc);
    MatchesAppend(Sentinels(SLOTS - |pairs|), Sort(pairs), pc);
  }

  // ---------------------------------------------------------------------------------------------
  // The command word, computed in the shell's 64-bit arithmetic
  // ---------------------------------------------------------------------------------------------

  function CtraceCmd(cmd: bv64, sink: bv64, direct: bv64): bv64 {
    ((direct & 0xffffff) << 8) | ((sink & 3) << 6) | (cmd & 63)
  }

  function Low32(x: bv64): bv32 { (x & 0xffff_ffff) as bv32 }

  /** Script and firmware build the same word from the same three fields. */
  lemma ScriptMatchesFirmware(cmd: bv64, sink: bv64, direct: bv64)
    ensures CtraceCmd(cmd, sink, direct) == BuildCommandWord(Low32(cmd), Low32(sink), Low32(direct)) as bv64
  {
  }

  // ---------------------------------------------------------------------------------------------
  // Writing the table
  // ---------------------------------------------------------------------------------------------

  function AddrOf(slot: nat): nat { TABLE_BASE + slot * 8 }

  /** Registers after the rows have been written from this slot on. */
  function WriteRows(mem: map<nat, Word>, slot: nat, rows: seq<Pair>): map<nat, Word>
    decreases |rows|
  {
    if rows == [] then mem
    else WriteRows(mem[AddrOf(slot) := rows[0].pc][AddrOf(slot) + 4 := rows[0].cmd], slot + 1, rows[1..])
  }

  lemma {:induction false} WriteRowsSnoc(mem: map<nat, Word>, slot: nat, rows: seq<Pair>, row: Pair)
    ensures var a := AddrOf(slot + |rows|);
            WriteRows(mem, slot, rows + [row]) == WriteRows(mem, slot, rows)[a := row.pc][a + 4 := row.cmd]
    decreases |rows|
  {
    if rows != [] {
      assert (rows + [row])[1..] == rows[1..] + [row];
      WriteRowsSnoc(mem[AddrOf(slot) := rows[0].pc][AddrOf(slot) + 4 := rows[0].cmd], slot + 1, rows[1..], row);
    } else {
      assert rows + [row] == [row] && [row][1..] == [];
    }
  }

  predicate ReadsBack(m: map<nat, Word>, slot: nat, row: Pair) {
    && AddrOf(slot) in m && m[AddrOf(slot)] == row.pc
    && AddrOf(slot) + 4 in m && m[AddrOf(slot) + 4] == row.cmd
  }

  /** Registers below the first of these slots and from the second on are the same. */
  ghost predicate SameOutside(m: map<nat, Word>, was: map<nat, Word>, first: nat, end: nat) {
    forall a: nat :: a < AddrOf(first) || a >= AddrOf(end) ==> (a in m <==> a in was) && (a in m ==> m[a] == was[a])
  }

  lemma {:induction false} WriteRowsOutside(mem: map<nat, Word>, slot: nat, rows: seq<Pair>)
    ensures SameOutside(WriteRows(mem, slot, rows), mem, slot, slot + |rows|)
    decreases |rows|
  {
    if rows != [] {
      WriteRowsOutside(mem[AddrOf(slot) := rows[0].pc][AddrOf(slot) + 4 := rows[0].cmd], slot + 1, rows[1..]);
    }
  }

  /** Every slot reads back its row. */
  lemma {:induction false} ReadBack(mem: map<nat, Word>, slot: nat, rows: seq<Pair>, i: nat)
    requires i < |rows|
    ensures ReadsBack(WriteRows(mem, slot, rows), slot + i, rows[i])
    decreases |rows|
  {
    var next := mem[AddrOf(slot) := rows[0].pc][AddrOf(slot) + 4 := rows[0].cmd];
    if i == 0 {
      WriteRowsOutside(next, slot + 1, rows[1..]);
    } else {
      ReadBack(next, slot + 1, rows[1..], i - 1);
    }
  }

  /** Slot k is at 0xa0904100 + 8 k, its command four bytes on. */
  lemma SlotRegisters(m: map<nat, Word>, slot: nat, row: Pair)
    ensures ReadsBack(m, slot, row) <==>
            && 0xa090_4100 + 8 * slot in m && m[0xa090_4100 + 8 * slot] == row.pc
            && 0xa090_4104 + 8 * slot in m && m[0xa090_4104 + 8 * slot] == row.cmd
  {
  }

  lemma TableWritten(mem: map<nat, Word>, rows: seq<Pair>)
    ensures forall slot :: 0 <= slot < |rows| ==> ReadsBack(WriteRows(mem, 0, rows), slot, rows[slot])
  {
    hide WriteRows;
    forall slot | 0 <= slot < |rows|
      ensures ReadsBack(WriteRows(mem, 0, rows), slot, rows[slot])
    {
      ReadBack(mem, 0, rows, slot);
    }
  }

  lemma OutsideRegisters(m: map<nat, Word>, was: map<nat, Word>)
    requires SameOutside(m, was, 0, SLOTS)
    ensures forall a: nat :: a < 0xa090_4100 || a >= 0xa090_4178 ==>
              (a in m <==> a in was) && (a in m ==> m[a] == was[a])
  {
  }

  lemma Untouched(m: map<nat, Word>)
    ensures SameOutside(m, m, 0, SLOTS) && WriteRows(m, 0, []) == m
  {
  }

  lemma OutsideTable(m: map<nat, Word>, mid: map<nat, Word>, was: map<nat, Word>, slot: nat)
    requires slot < SLOTS && SameOutside(m, mid, slot, slot + 1) && SameOutside(mid, was, 0, SLOTS)
    ensures SameOutside(m, was, 0, SLOTS)
  {
  }

  /** The bitwise and of two w-bit numbers. */
  function And(x: nat, mask: nat, w: nat): nat {
    if w == 0 then 0 else x % 2 * (mask % 2) + 2 * And(x / 2, mask / 2, w - 1)
  }

  predicate Bit(x: nat, k: nat) { if k == 0 then x % 2 == 1 else Bit(x / 2, k - 1) }

  lemma BitIsDigit(x: nat)
    ensures Bit(x, 0) <==> x % 2 == 1
    ensures Bit(x, 1) <==> x / 2 % 2 == 1
    ensures Bit(x, 2) <==> x / 4 % 2 == 1
    ensures Bit(x, 3) <==> x / 8 % 2 == 1
  {
    assert Bit(x, 3) == Bit(x / 2, 2) == Bit(x / 2 / 2, 1) == Bit(x / 2 / 2 / 2, 0);
    assert Bit(x, 2) == Bit(x / 2, 1) == Bit(x / 2 / 2, 0);
    assert x / 2 / 2 == x / 4 && x / 2 / 2 / 2 == x / 8;
  }

  lemma AndHalf(x: nat, mask: nat, w: nat)
    requires w > 0
    ensures And(x, mask, w) / 2 == And(x / 2, mask / 2, w - 1)
    ensures And(x, mask, w) % 2 == 1 <==> x % 2 == 1 && mask % 2 == 1
  {
    if x % 2 == 1 && mask % 2 == 1 {
      assert x % 2 * (mask % 2) == 1;
    } else {
      assert x % 2 * (mask % 2) == 0;
    }
  }

  /** A bit of the result is set exactly if it is set in both. */
  lemma {:induction false} AndBits(x: nat, mask: nat, w: nat, k: nat)
    requires k < w
    ensures Bit(And(x, mask, w), k) <==> Bit(x, k) && Bit(mask, k)
    decreases k
  {
    hide And;
    AndHalf(x, mask, w);
    if k > 0 {
      AndBits(x / 2, mask / 2, w - 1, k - 1);
    }
  }

  predicate SameBits(x: nat, y: nat, mask: nat, w: nat) {
    forall k :: 0 <= k < w && Bit(mask, k) ==> (Bit(x, k) <==> Bit(y, k))
  }

  lemma SameBitsHalf(x: nat, y: nat, mask: nat, w: nat)
    requires w > 0
    ensures SameBits(x, y, mask, w) <==>
            (mask % 2 == 1 ==> x % 2 == y % 2) && SameBits(x / 2, y / 2, mask / 2, w - 1)
  {
    if SameBits(x, y, mask, w) {
      assert Bit(mask, 0) ==> (Bit(x, 0) <==> Bit(y, 0));
      forall k | 0 <= k < w - 1 && Bit(mask / 2, k)
        ensures Bit(x / 2, k) <==> Bit(y / 2, k)
      {
        assert Bit(mask, k + 1);
      }
    }
    if (mask % 2 == 1 ==> x % 2 == y % 2) && SameBits(x / 2, y / 2, mask / 2, w - 1) {
      forall k | 0 <= k < w && Bit(mask, k)
        ensures Bit(x, k) <==> Bit(y, k)
      {
        if k > 0 {
          assert Bit(mask / 2, k - 1);
        }
      }
    }
  }

  /** Two numbers agree under a mask exactly if they differ only in bits that are clear in it. */
  lemma {:induction false} AndAgrees(x: nat, y: nat, mask: nat, w: nat)
    ensures And(x, mask, w) == And(y, mask, w) <==> SameBits(x, y, mask, w)
    decreases w
  {
    hide Bit;
    if w > 0 {
      AndAgrees(x / 2, y / 2, mask / 2, w - 1);
      SameBitsHalf(x, y, mask, w);
      AndHalf(x, mask, w);
      AndHalf(y, mask, w);
      hide And, SameBits;
    }
  }

  function AllOnes(w: nat): nat { if w == 0 then 0 else 1 + 2 * AllOnes(w - 1) }

  lemma {:induction false} AndAllOnes(x: nat, w: nat)
    requires x <= AllOnes(w)
    ensures And(x, AllOnes(w), w) == x
  {
    if w > 0 {
      assert AllOnes(w) / 2 == AllOnes(w - 1) && AllOnes(w) % 2 == 1;
      AndAllOnes(x / 2, w - 1);
    }
  }

  /** The default mask compares every bit. */
  lemma FullMask(x: Word)
    ensures And(x, 0xffff_ffff, 32) == x
  {
    assert AllOnes(8) == 0xff;
    assert AllOnes(16) == 0xffff;
    assert AllOnes(24) == 0xff_ffff;
    assert AllOnes(32) == 0xffff_ffff;
    AndAllOnes(x, 32);
  }

  predicate Agrees(x: Word, val: Word, mask: Word) { SameBits(x, val, mask, 32) }

  lemma FullyAgrees(x: Word, val: Word)
    ensures Agrees(x, val, FULL_MASK) <==> x == val
  {
    AndAgrees(x, val, FULL_MASK, 32);
    FullMask(x);
    FullMask(val);
  }

  /** The mask of the control register: hardware drives bit 3, and nothing else is left out of the comparison. */
  lemma ControlMask(x: Word, y: Word)
    requires x / 16 == y / 16 && x % 8 == y % 8
    ensures Agrees(x, y, 0xffff_fff7)
  {
    hide SameBits, Bit;
    var x1, x2, x3, y1, y2, y3 := x / 2, x / 4, x / 8, y / 2, y / 4, y / 8;
    LowDigits(x, y);
    SameBitsHalf(x, y, 0xffff_fff7, 32);
    SameBitsHalf(x1, y1, 0x7fff_fffb, 31);
    SameBitsHalf(x2, y2, 0x3fff_fffd, 30);
    SameBitsHalf(x3, y3, 0x1fff_fffe, 29);
    SameBitsSelf(x / 16, 0x0fff_ffff, 28);
  }

  lemma LowDigits(x: nat, y: nat)
    requires x / 16 == y / 16 && x % 8 == y % 8
    ensures x % 2 == y % 2 && x / 2 % 2 == y / 2 % 2 && x / 4 % 2 == y / 4 % 2
    ensures x / 2 / 2 == x / 4 && x / 4 / 2 == x / 8 && x / 8 / 2 == x / 16
    ensures y / 2 / 2 == y / 4 && y / 4 / 2 == y / 8 && y / 8 / 2 == y / 16
  {
    LowOctalDigit(x);
    LowOctalDigit(y);
  }

  lemma LowOctalDigit(x: nat)
    ensures x % 2 == x % 8 % 2 && x / 2 % 2 == x % 8 / 2 % 2 && x / 4 % 2 == x % 8 / 4
    ensures x / 2 / 2 == x / 4 && x / 4 / 2 == x / 8 && x / 8 / 2 == x / 16
  {
    var q, r := x / 8, x % 8;
    EvenPart(4 * q, r);
    EvenPart(2 * q, r / 2);
    EvenPart(q, r / 4);
    Halves(x);
  }

  lemma EvenPart(e: nat, r: nat)
    ensures (2 * e + r) % 2 == r % 2 && (2 * e + r) / 2 == e + r / 2
  {
  }

  lemma Halves(x: nat)
    ensures x / 2 / 2 == x / 4
    ensures x / 4 / 2 == x / 8
    ensures x / 8 / 2 == x / 16
  {
  }

  lemma SameBitsSelf(x: nat, mask: nat, w: nat)
    ensures SameBits(x, x, mask, w)
  {
  }

  /** The next write that sticks is write j: the compared bits are wrong after every earlier one. Behind the faults
      writes commit. */
  predicate Sticks(faults: seq<Word>, val: Word, mask: Word, j: nat) {
    && j <= |faults|
    && (forall k :: 0 <= k < j ==> !Agrees(faults[k], val, mask))
    && (j < |faults| ==> Agrees(faults[j], val, mask))
  }

  lemma SameAgrees(x: Word, val: Word, mask: Word)
    ensures Agrees(x, val, mask) <==> And(x, mask, 32) == And(val, mask, 32)
  {
    AndAgrees(x, val, mask, 32);
  }

  /** Eight faulty writes are ahead, none of which leaves the value. */
  predicate Stuck(faults: seq<Word>, val: Word) {
    |faults| >= 8 && forall k :: 0 <= k < 8 ==> faults[k] != val
  }

  /** With fewer than eight faults ahead some write sticks within the retries; none does when eight leave it wrong. */
  lemma {:induction false} SticksFully(faults: seq<Word>, val: Word)
    ensures |faults| < 8 ==> exists j :: 0 <= j < MAX_RETRIES && Sticks(faults, val, FULL_MASK, j)
    ensures Stuck(faults, val) ==> !exists j :: 0 <= j < MAX_RETRIES && Sticks(faults, val, FULL_MASK, j)
  {
    hide Agrees;
    var j := SomeSticks(faults, val, FULL_MASK);
    forall k | 0 <= k < |faults|
      ensures Agrees(faults[k], val, FULL_MASK) <==> faults[k] == val
    {
      FullyAgrees(faults[k], val);
    }
  }

  lemma {:induction false} SomeSticks(faults: seq<Word>, val: Word, mask: Word) returns (j: nat)
    ensures Sticks(faults, val, mask, j)
    decreases |faults|
  {
    hide Agrees;
    if faults == [] || Agrees(faults[0], val, mask) {
      j := 0;
    } else {
      var k := SomeSticks(faults[1..], val, mask);
      j := k + 1;
      assert forall m :: 0 < m < |faults| ==> faults[m] == faults[1..][m - 1];
    }
  }

  /** Registers behind a bus whose next writes may not commit: each leaves the given value in place of its own. */
  class TraceRegisters {
    var mem: map<nat, Word>
    var faults: seq<Word>

    method DevMemWrite(addr: nat, val: Word)
      modifies this
      ensures mem == old(mem)[addr := if old(faults) == [] then val else old(faults)[0]]
      ensures faults == if old(faults) == [] then [] else old(faults)[1..]
    {
      if faults == [] {
        mem := mem[addr := val];
      } else {
        mem, faults := mem[addr := faults[0]], faults[1..];
      }
    }

    /** Write, read back, compare under the mask, and try again up to the limit. It succeeds at the first read-back
        within the retries that differs from the value only in bits clear in the mask. */
    method VerifiedWrite(addr: nat, val: Word, mask: Word, maxRetries: nat) returns (ok: bool)
      modifies this
      ensures ok <==> exists j :: 0 <= j < maxRetries && Sticks(old(faults), val, mask, j)
      ensures forall j :: 0 <= j < maxRetries && Sticks(old(faults), val, mask, j) ==>
                && mem == old(mem)[addr := if j < |old(faults)| then old(faults)[j] else val]
                && faults == old(faults)[if j < |old(faults)| then j + 1 else j..]
      ensures ok && mask == FULL_MASK ==> mem == old(mem)[addr := val]
      ensures forall a :: a != addr ==> (a in mem <==> a in old(mem)) && (a in mem ==> mem[a] == old(mem)[a])
      ensures |faults| <= |old(faults)|
    {
      hide Agrees, And;
      ghost var was := faults;
      var i := 1;
      while i <= maxRetries
        invariant 1 <= i <= maxRetries + 1 && i - 1 <= |was| && faults == was[i - 1..]
        invariant forall k :: 0 <= k < i - 1 ==> !Agrees(was[k], val, mask)
        invariant mem == old(mem) || (addr in mem && mem == old(mem)[addr := mem[addr]])
      {
        DevMemWrite(addr, val);
        var readback := mem[addr];
        SameAgrees(readback, val, mask);
        FullyAgrees(readback, val);
        if And(readback, mask, 32) == And(val, mask, 32) {
          assert Sticks(was, val, mask, i - 1);
          return true;
        }
        i := i + 1;
      }
      return false;
    }

    /** One slot: the address, then the command. */
    method WriteSlot(slot: nat, row: Pair) returns (failed: nat)
      modifies this
      ensures failed == 0 ==> mem == old(mem)[AddrOf(slot) := row.pc][AddrOf(slot) + 4 := row.cmd]
      ensures |old(faults)| < 8 ==> failed == 0
      ensures Stuck(old(faults), row.pc) ==> failed > 0
      ensures |faults| <= |old(faults)|
      ensures SameOutside(mem, old(mem), slot, slot + 1)
    {
      hide Agrees;
      failed := 0;
      SticksFully(faults, row.pc);
      var ok := VerifiedWrite(AddrOf(slot), row.pc, FULL_MASK, MAX_RETRIES);
      if !ok { failed := failed + 1; }
      SticksFully(faults, row.cmd);
      ok := VerifiedWrite(AddrOf(slot) + 4, row.cmd, FULL_MASK, MAX_RETRIES);
      if !ok { failed := failed + 1; }
    }

    /** The checks of ctrace_set_watchpoints, before anything is written. */
    method CheckArguments(pairs: seq<Pair>) returns (outcome: Outcome, rows: seq<Pair>)
      ensures outcome == Build(pairs)
      ensures outcome.Table? ==> |rows| <= SLOTS && outcome.rows == Sentinels(SLOTS - |rows|) + rows
    {
      hide Sort, Keys, Key, UniqueLines, RejectsSmallest, Sentinels;
      rows := [];
      if |pairs| > SLOTS {
        return TooMany, rows;
      }
      SortLength(pairs);
      rows := Sort(pairs);
      if UniqueLines(Keys(rows)) != |rows| {
        return Duplicate, rows;
      }
      var nsent := SLOTS - |rows|;
      if nsent > 0 && |rows| > 0 {
        var smallest := Key(rows[0]);
        var maxSent := nsent * 2 - 1;
        if RejectsSmallest(maxSent, smallest) {
          return TooLow, rows;
        }
      }
      outcome := Table(Sentinels(nsent) + rows);
    }

    /** ctrace_set_watchpoints. A failed write is reported and the next one goes ahead; failed counts the reports. */
    method SetWatchpoints(pairs: seq<Pair>) returns (outcome: Outcome, failed: nat)
      modifies this
      ensures outcome == Build(pairs)
      ensures !outcome.Table? ==> mem == old(mem) && faults == old(faults) && failed == 0
      ensures outcome.Table? && failed == 0 ==> mem == WriteRows(old(mem), 0, outcome.rows)
      ensures outcome.Table? && failed == 0 ==>
                forall slot :: 0 <= slot < |outcome.rows| ==> ReadsBack(mem, slot, outcome.rows[slot])
      ensures |old(faults)| < 8 ==> failed == 0
      ensures outcome.Table? ==> |outcome.rows| == 15
      ensures outcome.Table? && Stuck(old(faults), outcome.rows[0].pc) ==> failed > 0
      ensures forall a: nat :: a < 0xa090_4100 || a >= 0xa090_4178 ==>
                (a in mem <==> a in old(mem)) && (a in mem ==> mem[a] == old(mem)[a])
    {
      hide SameOutside, WriteRows, Build, Stuck, Sentinels, ReadsBack;
      failed := 0;
      var rows;
      outcome, rows := CheckArguments(pairs);
      if outcome.Table? {
        TableWritten(mem, outcome.rows);
        failed := WriteTable(SLOTS - |rows|, rows);
        OutsideRegisters(mem, old(mem));
      }
    }

    method WriteTable(nsent: nat, rows: seq<Pair>) returns (failed: nat)
      requires nsent + |rows| == SLOTS
      modifies this
      ensures failed == 0 ==> mem == WriteRows(old(mem), 0, Sentinels(nsent) + rows)
      ensures |old(faults)| < 8 ==> failed == 0
      ensures Stuck(old(faults), (Sentinels(nsent) + rows)[0].pc) ==> failed > 0
      ensures SameOutside(mem, old(mem), 0, SLOTS)
    {
      hide SameOutside, WriteRows, AddrOf;
      failed := 0;
      var slot, v := 0, 1;
      Untouched(mem);
      ghost var table := Sentinels(nsent) + rows;
      while slot < nsent
        invariant 0 <= slot <= nsent && v == 2 * slot + 1
        invariant failed == 0 ==> mem == WriteRows(old(mem), 0, table[..slot])
        invariant |faults| <= |old(faults)| && (|old(faults)| < 8 ==> failed == 0)
        invariant if slot == 0 then faults == old(faults) else Stuck(old(faults), table[0].pc) ==> failed > 0
        invariant SameOutside(mem, old(mem), 0, SLOTS)
      {
        WriteRowsSnoc(old(mem), 0, table[..slot], table[slot]);
        assert table[..slot] + [table[slot]] == table[..slot + 1];
        ghost var before := mem;
        var bad := WriteSlot(slot, Pair(v, NO_COMMAND));
        OutsideTable(mem, before, old(mem), slot);
        failed := failed + bad;
        slot, v := slot + 1, v + 2;
      }
      for r := 0 to |rows|
        invariant slot == nsent + r
        invariant failed == 0 ==> mem == WriteRows(old(mem), 0, table[..slot])
        invariant |faults| <= |old(faults)| && (|old(faults)| < 8 ==> failed == 0)
        invariant if slot == 0 then faults == old(faults) else Stuck(old(faults), table[0].pc) ==> failed > 0
        invariant SameOutside(mem, old(mem), 0, SLOTS)
      {
        WriteRowsSnoc(old(mem), 0, table[..slot], table[slot]);
        assert table[..slot] + [table[slot]] == table[..slot + 1];
        ghost var before := mem;
        var bad := WriteSlot(slot, rows[r]);
        OutsideTable(mem, before, old(mem), slot);
        failed := failed + bad;
        slot := slot + 1;
      }
      assert table[..slot] == table;
    }
  }
}

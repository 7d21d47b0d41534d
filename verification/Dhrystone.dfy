/** The Dhrystone variant of dhrystone.c, with its records, arrays and counter changed in place. */
module Dhrystone {

  datatype Enumeration = Ident1 | Ident2 | Ident3 | Ident4 | Ident5

  const NUL: char := '\0'
  const STRING_SIZE := 31
  const DIMENSION := 51

  function Title(): string { "DHRYSTONE PROGRAM, " }

  function SomeString(): string { Title() + "SOME STRING" }

  function FirstString(): string { Title() + "1'ST STRING" }

  function SecondString(): string { Title() + "2'ND STRING" }

  /** One struct Record. */
  class RecordType {
    var PtrComp: RecordType?
    var Discr: Enumeration
    var EnumComp: Enumeration
    var IntComp: int
    const StringComp: array<char>

    constructor (text: array<char>)
      ensures StringComp == text
    {
      StringComp := text;
      PtrComp, Discr, EnumComp, IntComp := null, Ident1, Ident1, 0;
    }
  }

  /** Two records are one object, or share no memory. */
  predicate Separate(r: RecordType, s: RecordType) {
    r.StringComp.Length == s.StringComp.Length && (r != s ==> r.StringComp != s.StringComp)
  }

  /** What a record holds. */
  datatype Contents = Contents(
    link: RecordType?, discr: Enumeration, enumComp: Enumeration, intComp: int, text: seq<char>)

  ghost function Held(r: RecordType): Contents
    reads r, r.StringComp
  {
    Contents(r.PtrComp, r.Discr, r.EnumComp, r.IntComp, r.StringComp[..])
  }

  predicate NoNul(t: string) { forall i :: 0 <= i < |t| ==> t[i] != NUL }

  /** The text a char array holds up to its terminator. */
  predicate Holds(s: seq<char>, t: string) {
    NoNul(t) && |t| < |s| && s[..|t|] == t && s[|t|] == NUL
  }

  function CommonPrefix(s: string, t: string): (n: nat)
    ensures n <= |s| && n <= |t|
    ensures forall i :: 0 <= i < n ==> s[i] == t[i]
    ensures n < |s| && n < |t| ==> s[n] != t[n]
  {
    if s == "" || t == "" || s[0] != t[0] then 0 else 1 + CommonPrefix(s[1..], t[1..])
  }

  /** What Proc6 leaves in its out-parameter. */
  function Proc6Result(par: Enumeration, intGlob: int): Enumeration {
    match par
    case Ident1 => Ident1
    case Ident2 => if intGlob > 100 then Ident1 else Ident4
    case Ident3 => Ident2
    case Ident4 => Ident4
    case Ident5 => Ident3
  }

  function Proc6Count(par: Enumeration): int {
    match par
    case Ident1 => 48
    case Ident2 => 49
    case Ident3 => 7
    case Ident4 => 51
    case Ident5 => 52
  }

  lemma {:induction false} PrefixThenDiffer(p: string, s: string, t: string)
    requires s != "" && t != "" && s[0] != t[0]
    ensures CommonPrefix(p + s, p + t) == |p|
  {
    if p == "" {
      assert p + s == s && p + t == t;
    } else {
      assert (p + s)[1..] == p[1..] + s && (p + t)[1..] == p[1..] + t;
      PrefixThenDiffer(p[1..], s, t);
    }
  }

  lemma TitleText()
    ensures |Title()| == 19 && NoNul(Title()) && Title()[1] == 'H' && Title()[2] == 'R'
  {
  }

  lemma NoNulAppend(s: string, t: string)
    requires NoNul(s) && NoNul(t)
    ensures NoNul(s + t)
  {
  }

  /** The two local strings of Proc0 part after nineteen characters, the first one at the smaller character. */
  lemma LocalStrings()
    ensures NoNul(SomeString()) && NoNul(FirstString()) && NoNul(SecondString())
    ensures |SomeString()| == |FirstString()| == |SecondString()| == 30
    ensures CommonPrefix(FirstString(), SecondString()) == 19
    ensures FirstString()[19] == '1' && SecondString()[19] == '2' && FirstString()[1] == 'H' && SecondString()[2] == 'R'
  {
    hide Title, NoNul, CommonPrefix;
    TitleText();
    Endings();
    NoNulAppend(Title(), "SOME STRING");
    NoNulAppend(Title(), "1'ST STRING");
    NoNulAppend(Title(), "2'ND STRING");
    PrefixThenDiffer(Title(), "1'ST STRING", "2'ND STRING");
  }

  lemma Texts()
    ensures SomeString() + [NUL] == "DHRYSTONE PROGRAM, SOME STRING\0"
    ensures FirstString() == "DHRYSTONE PROGRAM, 1'ST STRING"
    ensures SecondString() == "DHRYSTONE PROGRAM, 2'ND STRING"
  {
  }

  lemma Endings()
    ensures NoNul("SOME STRING") && NoNul("1'ST STRING") && NoNul("2'ND STRING")
  {
  }

  class Benchmark {
    var counter: int
    var zz: int
    const feld: seq<RecordType>
    var IntGlob: int
    var BoolGlob: bool
    var Char1Glob: char
    var Char2Glob: char
    const Array1Glob: array<int>
    const Array2Glob: array2<int>
    var PtrGlb: RecordType?
    var PtrGlbNext: RecordType?

    ghost predicate Valid() {
      && |feld| == 5
      && (forall i, j :: 0 <= i < j < 5 ==> feld[i] != feld[j] && feld[i].StringComp != feld[j].StringComp)
      && (forall i :: 0 <= i < 5 ==> feld[i].StringComp.Length == STRING_SIZE)
      && Array1Glob.Length == DIMENSION && Array2Glob.Length0 == DIMENSION && Array2Glob.Length1 == DIMENSION
    }

    constructor (feld: seq<RecordType>, list: array<int>, grid: array2<int>)
      requires |feld| == 5
      requires forall i, j :: 0 <= i < j < 5 ==> feld[i] != feld[j] && feld[i].StringComp != feld[j].StringComp
      requires forall i :: 0 <= i < 5 ==> feld[i].StringComp.Length == 31
      requires list.Length == 51 && grid.Length0 == 51 && grid.Length1 == 51
      ensures Valid() && this.feld == feld && Array1Glob == list && Array2Glob == grid
    {
      this.feld, Array1Glob, Array2Glob := feld, list, grid;
    }

    // Strings and memory

    /** The result has the sign of the first difference; the counter advances over the common prefix. */
    method StrcmpX(s: array<char>, t: array<char>, ghost a: string, ghost b: string) returns (r: int)
      requires Holds(s[..], a) && Holds(t[..], b)
      modifies this`counter
      ensures counter == old(counter) + CommonPrefix(a, b)
      ensures r == 0 <==> a == b
      ensures r == s[CommonPrefix(a, b)] as int - t[CommonPrefix(a, b)] as int
    {
      var i := 0;
      while s[i] == t[i]
        invariant 0 <= i <= CommonPrefix(a, b)
        invariant counter == old(counter) + i
        decreases |a| - i
      {
        if s[i] == NUL {
          return 0;
        }
        counter := counter + 1;
        i := i + 1;
      }
      return s[i] as int - t[i] as int;
    }

    method StrcpyX(s: array<char>, t: string)
      requires NoNul(t) && |t| < s.Length
      modifies this`counter, s
      ensures counter == old(counter) + |t|
      ensures Holds(s[..], t)
      ensures forall k :: |t| < k < s.Length ==> s[k] == old(s[k])
    {
      var i := 0;
      var literal := t + [NUL];
      s[i] := literal[i];
      while s[i] != NUL
        invariant 0 <= i <= |t|
        invariant s[..i] == t[..i] && s[i] == literal[i]
        invariant counter == old(counter) + i
        invariant forall k :: i < k < s.Length ==> s[k] == old(s[k])
        decreases |t| - i
      {
        counter := counter + 1;
        i := i + 1;
        s[i] := literal[i];
      }
    }

    /** memcpy_x over a whole record. */
    method AssignRecord(d: RecordType, s: RecordType)
      requires d.StringComp.Length == s.StringComp.Length
      modifies this`counter, d, d.StringComp
      ensures counter == old(counter) + 1
      ensures d.PtrComp == old(s.PtrComp) && d.Discr == old(s.Discr) && d.EnumComp == old(s.EnumComp)
      ensures d.IntComp == old(s.IntComp) && d.StringComp[..] == old(s.StringComp[..])
    {
      d.PtrComp, d.Discr, d.EnumComp, d.IntComp := s.PtrComp, s.Discr, s.EnumComp, s.IntComp;
      forall i | 0 <= i < d.StringComp.Length {
        d.StringComp[i] := s.StringComp[i];
      }
      counter := counter + 1;
    }

    method MallocX() returns (r: RecordType)
      requires 0 <= zz < |feld|
      modifies this`zz, this`counter
      ensures zz == old(zz) + 1 && counter == old(counter) + 101 && r == feld[old(zz)]
    {
      zz := zz + 1;
      counter := counter + 101;
      r := feld[zz - 1];
    }

    // The whole benchmark

    /** Every object the benchmark may change, besides its own fields. */
    ghost function Memory(): set<object>
      requires Valid()
    {
      {feld[0], feld[1], feld[0].StringComp, feld[1].StringComp, Array1Glob, Array2Glob}
    }

    ghost predicate FirstRecord()
      requires Valid()
      reads feld[0], feld[0].StringComp
    {
      && feld[0].PtrComp == feld[0] && feld[0].Discr == Ident1 && feld[0].EnumComp == Ident2 && feld[0].IntComp == 18
      && feld[0].StringComp[..] == SomeString() + [NUL]
    }

    ghost predicate SecondRecord()
      requires Valid()
      reads feld[1], feld[1].StringComp
    {
      && feld[1].PtrComp == feld[0] && feld[1].Discr == Ident1 && feld[1].EnumComp == Ident3 && feld[1].IntComp == 17
      && feld[1].StringComp[..] == SomeString() + [NUL]
    }

    ghost predicate FinalGlobals()
      requires Valid()
      reads this
    {
      && zz == 2 && IntGlob == 5 && BoolGlob && Char1Glob == 'A' && Char2Glob == 'B'
      && PtrGlb == feld[1] && PtrGlbNext == feld[0]
    }

    /** From any prior state of the globals, and whatever the records hold. */
    method Dhry() returns (r: int)
      requires Valid()
      modifies this, Memory()
      ensures r == 855 && counter == 855
      ensures feld[0].StringComp[..] == feld[1].StringComp[..] == "DHRYSTONE PROGRAM, SOME STRING\0"
      ensures FinalGlobals() && FirstRecord() && SecondRecord()
      ensures forall k :: 0 <= k < DIMENSION ==>
                Array1Glob[k] == if k == 8 || k == 9 then 7 else if k == 38 then 8 else old(Array1Glob[k])
      ensures forall i, k :: 0 <= i < DIMENSION && 0 <= k < DIMENSION ==>
                Array2Glob[i, k] == if i == 8 && k == 7 then 11 else if i == 8 && (k == 8 || k == 9) then 8
                                    else if i == 28 && k == 8 then 7 else old(Array2Glob[i, k])
    {
      hide SomeString;
      Texts();
      counter := 7;
      zz := 0;
      Proc0();
      return counter;
    }

    /** The two records as Proc0 sets them up. */
    method SetUp()
      requires Valid() && zz == 0
      modifies this`zz, this`counter, this`PtrGlb, this`PtrGlbNext, feld[1], feld[1].StringComp
      ensures zz == 2 && counter == old(counter) + 232 && PtrGlbNext == feld[0] && PtrGlb == feld[1]
      ensures PtrGlb.PtrComp == feld[0] && PtrGlb.Discr == Ident1 && PtrGlb.EnumComp == Ident3
      ensures PtrGlb.StringComp[..] == SomeString() + [NUL]
    {
      hide SomeString, FirstString, SecondString, NoNul, CommonPrefix;
      LocalStrings();
      PtrGlbNext := MallocX();
      PtrGlb := MallocX();
      PtrGlb.PtrComp := PtrGlbNext;
      PtrGlb.Discr := Ident1;
      PtrGlb.EnumComp := Ident3;
      PtrGlb.IntComp := 40;
      StrcpyX(PtrGlb.StringComp, SomeString());
    }

    method Proc0()
      requires Valid() && zz == 0
      modifies this, Memory()
      ensures counter == old(counter) + 848
      ensures FinalGlobals() && FirstRecord() && SecondRecord()
      ensures forall k :: 0 <= k < DIMENSION ==>
                Array1Glob[k] == if k == 8 || k == 9 then 7 else if k == 38 then 8 else old(Array1Glob[k])
      ensures forall i, k :: 0 <= i < DIMENSION && 0 <= k < DIMENSION ==>
                Array2Glob[i, k] == if i == 8 && k == 7 then 11 else if i == 8 && (k == 8 || k == 9) then 8
                                    else if i == 28 && k == 8 then 7 else old(Array2Glob[i, k])
    {
      hide SomeString, FirstString, SecondString, NoNul, CommonPrefix;
      var string1Loc := new char[STRING_SIZE];
      LocalStrings();
      SetUp();
      StrcpyX(string1Loc, FirstString());
      Array2Glob[8, 7] := 10;
      var intLoc1, intLoc2, intLoc3, enumLoc := BeforeRecords(string1Loc);
      Proc8(Array1Glob, Array2Glob, intLoc1, intLoc3);
      Proc1(PtrGlb, feld[0]);
      AfterRecords(intLoc1, intLoc2, enumLoc);
    }

    /** Proc0 from its loop head to the call of Proc8. */
    method BeforeRecords(string1Loc: array<char>)
      returns (intLoc1: int, intLoc2: int, intLoc3: int, enumLoc: Enumeration)
      requires string1Loc.Length == STRING_SIZE && Holds(string1Loc[..], FirstString())
      modifies this`counter, this`Char1Glob, this`Char2Glob, this`BoolGlob
      ensures intLoc1 == 3 && intLoc2 == 3 && intLoc3 == 7 && enumLoc == Ident2
      ensures counter == old(counter) + 235 && Char1Glob == 'A' && Char2Glob == 'B' && BoolGlob
    {
      hide FirstString, SecondString, NoNul, CommonPrefix;
      var string2Loc := new char[STRING_SIZE];
      LocalStrings();
      counter := counter + 3;
      Proc5();
      Proc4();
      intLoc1, intLoc2 := 2, 3;
      StrcpyX(string2Loc, SecondString());
      enumLoc := Ident2;
      var greater := Func2(string1Loc, string2Loc, FirstString(), SecondString());
      BoolGlob := !greater;
      while intLoc1 < intLoc2
        invariant intLoc1 == 2 || (intLoc1 == 3 && assigned(intLoc3) && intLoc3 == 7)
        invariant counter == old(counter) + 222 + if intLoc1 == 2 then 0 else 13
        modifies this`counter
      {
        intLoc3 := 5 * intLoc1 - intLoc2;
        intLoc3 := Proc7(intLoc1, intLoc2);
        counter := counter + 9;
        intLoc1 := intLoc1 + 1;
      }
    }

    /** Proc0 from the call of Proc1 on. */
    method AfterRecords(loc1: int, loc2: int, loc: Enumeration)
      requires loc1 == 3 && loc2 == 3 && Char1Glob == 'A' && Char2Glob == 'B'
      modifies this`counter
      ensures counter == old(counter) + if loc == Ident1 then 321 else 225
    {
      var intLoc1, intLoc2, enumLoc := loc1, loc2, loc;
      var charIndex := 'A';
      while charIndex <= Char2Glob
        invariant 'A' <= charIndex <= 'C' && enumLoc == loc
        invariant counter == old(counter) + (if loc == Ident1 then 140 else 92) * (charIndex as int - 'A' as int)
        decreases 'C' as int - charIndex as int
      {
        var e := Func1(charIndex, 'C');
        if enumLoc == e {
          enumLoc := Proc6(Ident1);
        }
        charIndex := (charIndex as int + 1) as char;
        counter := counter + 1;
      }
      var intLoc3 := intLoc2 * intLoc1;
      intLoc2 := intLoc3 / intLoc1;
      intLoc2 := 7 * (intLoc3 - intLoc2) - intLoc1;
      intLoc1 := Proc2(intLoc1);
      counter := counter + 11;
    }

    // The procedures

    /** The record Proc1 works on: the next one, as the copy into it leaves the link. */
    ghost function Target(ptrParIn: RecordType): RecordType?
      requires PtrGlb != null
      reads this, ptrParIn, PtrGlb
    {
      if ptrParIn.PtrComp == ptrParIn then PtrGlb.PtrComp else ptrParIn.PtrComp
    }

    /** For any aliases among the parameter p, the global record g, the next record n and the target m. No other
        record changes. */
    method Proc1(p: RecordType, ghost m: RecordType)
      requires PtrGlb != null && p.PtrComp != null && m == Target(p)
      requires Separate(p, PtrGlb) && Separate(p, p.PtrComp) && Separate(PtrGlb, p.PtrComp)
      requires Separate(m, p) && Separate(m, PtrGlb) && Separate(m, p.PtrComp)
      modifies this`counter, p, p.StringComp, PtrGlb, m, m.StringComp
      ensures var g, n := PtrGlb, old(p.PtrComp);
              var was, copied := old(Held(m)), old(Held(g));
              var body, own := if m == n then copied else was, if p == n then copied else old(Held(p));
              var link := if g == m then m else copied.link;
              if body.discr == Ident1 then
                && Held(m) == Contents(link, Ident1, Proc6Result(own.enumComp, IntGlob), 18, body.text)
                && (p != m ==> Held(p) == own.(link := m, intComp := if g == p then IntGlob + 12 else 5))
                && (g != m && g != p ==> Held(g) == copied.(intComp := IntGlob + 12))
                && counter == old(counter) + 102 + Proc6Count(own.enumComp)
              else
                && Held(m) == body.(link := link, intComp := if g == m then IntGlob + 12 else 5)
                && Held(p) == Held(m)
                && (g != m && g != p ==> Held(g) == copied.(intComp := IntGlob + 12))
                && counter == old(counter) + 68
    {
      AssignRecord(p.PtrComp, PtrGlb);
      p.IntComp := 5;
      p.PtrComp.IntComp := p.IntComp;
      p.PtrComp.PtrComp := p.PtrComp;
      Proc3(p.PtrComp);
      if p.PtrComp.Discr == Ident1 {
        p.PtrComp.IntComp := 6;
        p.PtrComp.EnumComp := Proc6(p.EnumComp);
        p.PtrComp.PtrComp := PtrGlb.PtrComp;
        counter := counter + 27;
        p.PtrComp.IntComp := Proc7(p.PtrComp.IntComp, 10);
      } else {
        AssignRecord(p, p.PtrComp);
      }
      counter := counter + 23;
    }

    method Proc2(intPar: int) returns (intParIO: int)
      requires Char1Glob == 'A'
      modifies this`counter
      ensures intParIO == intPar + 9 - IntGlob && counter == old(counter) + 30
    {
      var intLoc := intPar + 10;
      var enumLoc: Enumeration;
      intParIO := intPar;
      var done := false;
      while !done
        invariant if done then intParIO == intPar + 9 - IntGlob && counter == old(counter) + 30
                  else intLoc == intPar + 10 && counter == old(counter)
        decreases if done then 0 else 1
      {
        if Char1Glob == 'A' {
          intLoc := intLoc - 1;
          intParIO := intLoc - IntGlob;
          counter := counter + 13;
          enumLoc := Ident1;
        }
        counter := counter + 17;
        done := enumLoc == Ident1;
      }
    }

    /** Writes through a pointer to the PtrComp of the given record. With PtrGlb null the source would, after its other
        branch, dereference it. */
    method Proc3(target: RecordType)
      requires PtrGlb != null
      modifies this`counter, target`PtrComp, PtrGlb`IntComp
      ensures target.PtrComp == old(PtrGlb.PtrComp)
      ensures PtrGlb.IntComp == IntGlob + 12 && counter == old(counter) + 43
    {
      counter := counter + 31;
      target.PtrComp := PtrGlb.PtrComp;
      PtrGlb.IntComp := Proc7(10, IntGlob);
    }

    method Proc4()
      modifies this`counter, this`Char2Glob
      ensures counter == old(counter) + 37 && Char2Glob == 'B'
    {
      var boolLoc := Char1Glob == 'A';
      boolLoc := boolLoc || BoolGlob;
      counter := counter + 37;
      Char2Glob := 'B';
    }

    method Proc5()
      modifies this`counter, this`Char1Glob, this`BoolGlob
      ensures counter == old(counter) + 41 && Char1Glob == 'A' && !BoolGlob
    {
      Char1Glob := 'A';
      counter := counter + 41;
      BoolGlob := false;
    }

    method Proc6(enumParIn: Enumeration) returns (enumParOut: Enumeration)
      modifies this`counter
      ensures enumParOut == Proc6Result(enumParIn, IntGlob)
      ensures counter == old(counter) + Proc6Count(enumParIn)
      ensures enumParIn == Ident1 ==> enumParOut == Ident1 && counter == old(counter) + 43 + 5
      ensures enumParIn == Ident2 ==> enumParOut == (if IntGlob > 100 then Ident1 else Ident4)
      ensures enumParIn == Ident2 ==> counter == old(counter) + 43 + 6
      ensures enumParIn == Ident3 ==> enumParOut == Ident2 && counter == old(counter) + 7
      ensures enumParIn == Ident4 ==> enumParOut == Ident4 && counter == old(counter) + 43 + 8
      ensures enumParIn == Ident5 ==> enumParOut == Ident3 && counter == old(counter) + 43 + 9
    {
      enumParOut := enumParIn;
      if !Func3(enumParIn) {
        enumParOut := Ident4;
        counter := counter + 43;
      }
      match enumParIn {
        case Ident1 => counter := counter + 5; enumParOut := Ident1;
        case Ident2 => counter := counter + 6; if IntGlob > 100 { enumParOut := Ident1; } else { enumParOut := Ident4; }
        case Ident3 => counter := counter + 7; enumParOut := Ident2;
        case Ident4 => counter := counter + 8;
        case Ident5 => counter := counter + 9; enumParOut := Ident3;
      }
    }

    method Proc7(intParI1: int, intParI2: int) returns (intParOut: int)
      modifies this`counter
      ensures intParOut == intParI1 + intParI2 + 2 && counter == old(counter) + intParI1 + 2
    {
      var intLoc := intParI1 + 2;
      counter := counter + intLoc;
      intParOut := intParI2 + intLoc;
    }

    /** All the array elements it touches, for every index that stays in bounds. */
    method Proc8(array1Par: array<int>, array2Par: array2<int>, intParI1: int, intParI2: int)
      requires array1Par.Length == 51 && array2Par.Length0 == 51 && array2Par.Length1 == 51
      requires -4 <= intParI1 <= 15
      modifies this`counter, this`IntGlob, array1Par, array2Par
      ensures IntGlob == 5 && counter == old(counter) + 2 * intParI1 + 11
      ensures forall k :: 0 <= k < DIMENSION ==>
                array1Par[k] == if k == intParI1 + 5 || k == intParI1 + 6 then intParI2
                                else if k == intParI1 + 35 then intParI1 + 5 else old(array1Par[k])
      ensures forall r, k :: 0 <= r < DIMENSION && 0 <= k < DIMENSION ==>
                array2Par[r, k] == if r == intParI1 + 5 && (k == r || k == r + 1) then r
                                   else if r == intParI1 + 5 && k == r - 1 then old(array2Par[r, k]) + 1
                                   else if r == intParI1 + 25 && k == intParI1 + 5 then intParI2
                                   else old(array2Par[r, k])
    {
      var intLoc := intParI1 + 5;
      array1Par[intLoc] := intParI2;
      array1Par[intLoc + 1] := array1Par[intLoc];
      array1Par[intLoc + 30] := intLoc;
      ghost var list := array1Par[..];
      var intIndex := intLoc;
      while intIndex <= intLoc + 1
        invariant array1Par[..] == list
        invariant intLoc <= intIndex <= intLoc + 2
        invariant counter == old(counter) + if intIndex == intLoc then 0
                                            else if intIndex == intLoc + 1 then intLoc else 2 * intLoc + 1
        invariant forall r, k :: 0 <= r < DIMENSION && 0 <= k < DIMENSION ==>
                    array2Par[r, k] == if r == intLoc && intLoc <= k < intIndex then intLoc else old(array2Par[r, k])
      {
        counter := counter + intIndex;
        array2Par[intLoc, intIndex] := intLoc;
        intIndex := intIndex + 1;
      }
      array2Par[intLoc, intLoc - 1] := array2Par[intLoc, intLoc - 1] + 1;
      array2Par[intLoc + 20, intLoc] := array1Par[intLoc];
      IntGlob := 5;
    }

    method Func1(charPar1: char, charPar2: char) returns (r: Enumeration)
      modifies this`counter
      ensures r == (if charPar1 == charPar2 then Ident2 else Ident1)
      ensures counter == old(counter) + if charPar1 == charPar2 then 93 else 91
    {
      var charLoc1 := charPar1;
      var charLoc2 := charLoc1;
      if charLoc2 != charPar2 {
        counter := counter + 91;
        return Ident1;
      } else {
        counter := counter + 93;
        return Ident2;
      }
    }

    /** Returns only if the second and third characters differ: otherwise its loop never advances. */
    method Func2(s: array<char>, t: array<char>, ghost a: string, ghost b: string) returns (r: bool)
      requires Holds(s[..], a) && Holds(t[..], b) && 1 < s.Length && 2 < t.Length && s[1] != t[2]
      modifies this`counter
      ensures r <==> s[CommonPrefix(a, b)] > t[CommonPrefix(a, b)]
      ensures counter == old(counter) + 92 + CommonPrefix(a, b) + if r then 47 else 0
    {
      var intLoc := 1;
      var charLoc: char;
      while intLoc <= 1
        invariant 1 <= intLoc <= 2
        invariant intLoc == 2 ==> assigned(charLoc) && charLoc == 'A'
        invariant counter == old(counter) + if intLoc == 1 then 0 else 92
        decreases 2 - intLoc
      {
        var e := Func1(s[intLoc], t[intLoc + 1]);
        if e == Ident1 {
          charLoc := 'A';
          counter := counter + intLoc;
          intLoc := intLoc + 1;
        }
      }
      if charLoc >= 'W' && charLoc <= 'Z' {
        intLoc := 7;
      }
      assert charLoc != 'X';  // the source's branch for it is dead
      var c := StrcmpX(s, t, a, b);
      if c > 0 {
        intLoc := intLoc + 7;
        counter := counter + 47;
        return true;
      } else {
        return false;
      }
    }

    predicate Func3(enumParIn: Enumeration) {
      var enumLoc := enumParIn;
      enumLoc == Ident3
    }
  }
}

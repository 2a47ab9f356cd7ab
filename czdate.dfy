/**
 * The Czech date strings shown on album tiles and album headers
 * ("20. 9. 2025"), read the way `parseDate` / `parseCzDate` read them: trim,
 * then try `time.Parse` with the layouts "2. 1. 2006", "2. 1.2006",
 * "2.1.2006" and "02.01.2006", in that order, keeping the first success.
 *
 * `time.Parse` is modelled for the layout elements these four use: a day or
 * month number (`2`/`1`: one or two digits, read greedily; `02`/`01`: exactly
 * two), a four-digit year (`2006`), a literal dot, and a layout space, which
 * needs at least one space in the input and then swallows all of them. A date
 * is the triple Go's parser validates (month 1..12, day within the month, leap
 * years counted); time zones and clock fields play no part.
 */
module CzDate {
  import opened Base
  import opened GoText

  datatype Date = Date(year: int, month: int, day: int)

  predicate IsLeap(year: int)
  {
    year % 4 == 0 && (year % 100 != 0 || year % 400 == 0)
  }

  function DaysIn(month: int, year: int): (n: int)
    requires 1 <= month <= 12
    ensures 28 <= n <= 31
    ensures month == 2 ==> (n == 29 <==> IsLeap(year))
  {
    if month == 2 then (if IsLeap(year) then 29 else 28)
    else if month == 4 || month == 6 || month == 9 || month == 11 then 30
    else 31
  }

  /** A date a four-digit-year layout can produce and Go accepts. */
  predicate ValidDate(d: Date)
  {
    0 <= d.year <= 9999 && 1 <= d.month <= 12 && 1 <= d.day <= DaysIn(d.month, d.year)
  }

  /** `a` is strictly before `b` (Time.Before on the two midnights). */
  predicate Earlier(a: Date, b: Date)
  {
    a.year < b.year || (a.year == b.year && (a.month < b.month || (a.month == b.month && a.day < b.day)))
  }

  // ---------------------------------------------------------------- layouts

  datatype Element = Day(fixed: bool) | Month(fixed: bool) | Year | Dot | Blank
  type Layout = seq<Element>

  const Spaced: Layout := [Day(false), Dot, Blank, Month(false), Dot, Blank, Year]  // "2. 1. 2006"
  const HalfSpaced: Layout := [Day(false), Dot, Blank, Month(false), Dot, Year]     // "2. 1.2006"
  const Compact: Layout := [Day(false), Dot, Month(false), Dot, Year]               // "2.1.2006"
  const ZeroPadded: Layout := [Day(true), Dot, Month(true), Dot, Year]              // "02.01.2006"
  const Layouts: seq<Layout> := [Spaced, HalfSpaced, Compact, ZeroPadded]

  /** What the parser has read so far; Go starts from year 0 and "no month", "no day". */
  datatype Fields = Fields(year: int, month: int, day: int)
  const Unset: Fields := Fields(0, -1, -1)

  /** Go's `getnum`: one or two digits, greedily; `fixed` demands two. */
  function GetNum(s: string, fixed: bool): (r: Option<(nat, string)>)
    ensures r.Some? ==>
      var k := |s| - |r.value.1|;
      && (if fixed then k == 2 else 1 <= k <= 2)
      && r.value.1 == s[k..] && AllDigits(s[..k]) && r.value.0 == DecimalValue(s[..k])
    ensures r.Some? ==> r.value.1 == [] || !IsDigit(r.value.1[0]) || |s| - |r.value.1| == 2
  {
    if s == [] || !IsDigit(s[0]) then None
    else if |s| == 1 || !IsDigit(s[1]) then
      if fixed then None
      else
        assert s[..1] == [s[0]];
        Some((DigitValue(s[0]), s[1..]))
    else
      assert s[..2] == [s[0], s[1]] && s[..2][..1] == [s[0]];
      Some((10 * DigitValue(s[0]) + DigitValue(s[1]), s[2..]))
  }

  /** Go's `cutspace`: drops leading ASCII spaces. */
  function CutSpace(s: string): (r: string)
    ensures |r| <= |s| && r == s[|s| - |r|..]
    ensures forall k :: 0 <= k < |s| - |r| ==> s[k] == ' '
    ensures r == [] || r[0] != ' '
  {
    if s != [] && s[0] == ' ' then CutSpace(s[1..]) else s
  }

  /**
   * `time.Parse`'s walk over the layout: each element consumes the front of
   * the input or fails; the whole input must be consumed.
   */
  function Scan(layout: Layout, s: string, acc: Fields): (r: Option<Fields>)
    ensures r.Some? && 0 <= acc.year <= 9999 ==> 0 <= r.value.year <= 9999
  {
    if layout == [] then (if s == [] then Some(acc) else None)
    else
      match layout[0]
      case Dot =>
        if s != [] && s[0] == '.' then Scan(layout[1..], s[1..], acc) else None
      case Blank =>
        if s != [] && s[0] != ' ' then None else Scan(layout[1..], CutSpace(s), acc)
      case Day(fixed) =>
        (match GetNum(s, fixed)
         case None => None
         case Some(read) => Scan(layout[1..], read.1, acc.(day := read.0)))
      case Month(fixed) =>
        (match GetNum(s, fixed)
         case None => None
         case Some(read) => Scan(layout[1..], read.1, acc.(month := read.0)))
      case Year =>
        if |s| < 4 || !IsDigit(s[0]) || !AllDigits(s[..4]) then None
        else
          assert Pow10(4) == 10000;
          Scan(layout[1..], s[4..], acc.(year := DecimalValue(s[..4])))
  }

  /** The checks `time.Parse` makes once the input is read: month range, then day within the month. */
  function Finish(f: Fields): (r: Option<Date>)
    ensures r.Some? && 0 <= f.year <= 9999 ==> ValidDate(r.value)
  {
    var month := if f.month < 0 then 1 else f.month;
    var day := if f.day < 0 then 1 else f.day;
    if month < 1 || 12 < month then None
    else if day < 1 || day > DaysIn(month, f.year) then None
    else Some(Date(f.year, month, day))
  }

  /** `time.Parse(layout, s)`, keeping only the calendar date. */
  function ParseWith(layout: Layout, s: string): (r: Option<Date>)
    ensures r.Some? ==> ValidDate(r.value)
  {
    match Scan(layout, s, Unset)
    case None => None
    case Some(f) => Finish(f)
  }

  /** The first layout of `ls` that parses `t`. */
  function FirstParse(ls: seq<Layout>, t: string): (r: Option<Date>)
    ensures r.Some? ==> ValidDate(r.value)
  {
    if ls == [] then None
    else
      match ParseWith(ls[0], t)
      case Some(d) => Some(d)
      case None => FirstParse(ls[1..], t)
  }

  /** `parseDate` (main.go) and its copy `parseCzDate`. */
  function ParseDate(s: string): (r: Option<Date>)
    ensures TrimSpace(s) == [] ==> r == None
    ensures r.Some? ==> ValidDate(r.value)
  {
    var t := TrimSpace(s);
    if t == [] then None else FirstParse(Layouts, t)
  }

  // ---------------------------------------------------------------- what a layout accepts, declaratively

  /** One piece of input that a layout element accepts on its own. */
  predicate Fits(e: Element, p: string)
  {
    match e
    case Day(fixed) => AllDigits(p) && (if fixed then |p| == 2 else 1 <= |p| <= 2)
    case Month(fixed) => AllDigits(p) && (if fixed then |p| == 2 else 1 <= |p| <= 2)
    case Year => AllDigits(p) && |p| == 4
    case Dot => p == "."
    case Blank => p != [] && forall k :: 0 <= k < |p| ==> p[k] == ' '
  }

  /** `pieces` cut an input into one fitting piece per layout element. */
  predicate Matches(layout: Layout, pieces: seq<string>)
  {
    |pieces| == |layout| && forall i :: 0 <= i < |layout| ==> Fits(layout[i], pieces[i])
  }

  function Concat(pieces: seq<string>): string
  {
    if pieces == [] then [] else pieces[0] + Concat(pieces[1..])
  }

  /** The field one fitting piece sets: numbers write their own field, dots and spaces none. */
  function Assign(e: Element, p: string, acc: Fields): Fields
    requires Fits(e, p)
  {
    match e
    case Day(_) => acc.(day := DecimalValue(p))
    case Month(_) => acc.(month := DecimalValue(p))
    case Year => acc.(year := DecimalValue(p))
    case _ => acc
  }

  /** The fields the number pieces denote, each element writing its own field. */
  function Fill(layout: Layout, pieces: seq<string>, acc: Fields): Fields
    requires Matches(layout, pieces)
  {
    if layout == [] then acc
    else Fill(layout[1..], pieces[1..], Assign(layout[0], pieces[0], acc))
  }

  /** The date a matched input denotes. */
  function DateOf(layout: Layout, pieces: seq<string>): Date
    requires Matches(layout, pieces)
  {
    var f := Fill(layout, pieces, Unset);
    Date(f.year, f.month, f.day)
  }

  /**
   * The layouts for which greedy reading agrees with the declarative cut: a
   * day or month number is never directly followed by another number, and a
   * space is always followed by a number.
   */
  predicate WellFormed(layout: Layout)
  {
    && (forall i :: 0 <= i < |layout| - 1 && (layout[i].Day? || layout[i].Month?) ==>
          layout[i + 1].Dot? || layout[i + 1].Blank?)
    && (forall i :: 0 <= i < |layout| && layout[i].Blank? ==>
          i + 1 < |layout| && (layout[i + 1].Day? || layout[i + 1].Month? || layout[i + 1].Year?))
  }

  /** What an element means, its width forgotten. */
  function Role(e: Element): Element
  {
    match e
    case Day(_) => Day(false)
    case Month(_) => Month(false)
    case _ => e
  }

  /** The layout with spaces removed and widths forgotten: what the fields mean, in order. */
  function Roles(layout: Layout): seq<Element>
  {
    if layout == [] then []
    else if layout[0].Blank? then Roles(layout[1..])
    else [Role(layout[0])] + Roles(layout[1..])
  }

  lemma LayoutsShape()
    ensures forall k :: 0 <= k < |Layouts| ==> WellFormed(Layouts[k])
    ensures forall k :: 0 <= k < |Layouts| ==> Roles(Layouts[k]) == [Day(false), Dot, Month(false), Dot, Year]
  {
    LayoutsRoles();
  }

  lemma LayoutsRoles()
    ensures Roles(Spaced) == [Day(false), Dot, Month(false), Dot, Year]
    ensures Roles(HalfSpaced) == [Day(false), Dot, Month(false), Dot, Year]
    ensures Roles(Compact) == [Day(false), Dot, Month(false), Dot, Year]
    ensures Roles(ZeroPadded) == [Day(false), Dot, Month(false), Dot, Year]
  {
    assert Roles(Spaced[6..]) == [Year];
    assert Roles(Spaced[5..]) == [Year];
    assert Roles(Spaced[4..]) == [Dot, Year];
    assert Roles(Spaced[3..]) == [Month(false), Dot, Year];
    assert Roles(Spaced[2..]) == [Month(false), Dot, Year];
    assert Roles(HalfSpaced[5..]) == [Year];
    assert Roles(HalfSpaced[4..]) == [Dot, Year];
    assert Roles(HalfSpaced[3..]) == [Month(false), Dot, Year];
    assert Roles(HalfSpaced[2..]) == [Month(false), Dot, Year];
    assert Roles(Compact[4..]) == [Year];
    assert Roles(Compact[3..]) == [Dot, Year];
    assert Roles(Compact[2..]) == [Month(false), Dot, Year];
    assert Roles(ZeroPadded[4..]) == [Year];
    assert Roles(ZeroPadded[3..]) == [Dot, Year];
    assert Roles(ZeroPadded[2..]) == [Month(false), Dot, Year];
  }

  // ---------------------------------------------------------------- facts about cut inputs

  lemma FitsNonEmpty(e: Element, p: string)
    requires Fits(e, p)
    ensures p != []
  {
  }

  lemma {:induction false} ConcatHead(layout: Layout, pieces: seq<string>)
    requires Matches(layout, pieces) && layout != []
    ensures Concat(pieces) == pieces[0] + Concat(pieces[1..])
    ensures Matches(layout[1..], pieces[1..])
    ensures pieces[0] != [] && Concat(pieces)[0] == pieces[0][0]
  {
    FitsNonEmpty(layout[0], pieces[0]);
  }

  /** What the input looks like right after the first piece, by the kind of the next element. */
  lemma {:induction false} NextChar(layout: Layout, pieces: seq<string>)
    requires Matches(layout, pieces) && layout != []
    ensures |layout| == 1 ==> Concat(pieces[1..]) == []
    ensures |layout| > 1 ==> Concat(pieces[1..]) != [] && Concat(pieces[1..])[0] == pieces[1][0]
    ensures |layout| > 1 && layout[1].Dot? ==> Concat(pieces[1..])[0] == '.'
    ensures |layout| > 1 && layout[1].Blank? ==> Concat(pieces[1..])[0] == ' '
    ensures |layout| > 1 && (layout[1].Day? || layout[1].Month? || layout[1].Year?) ==>
      IsDigit(Concat(pieces[1..])[0])
  {
    ConcatHead(layout, pieces);
    if |layout| > 1 {
      ConcatHead(layout[1..], pieces[1..]);
    }
  }

  lemma WellFormedTail(layout: Layout)
    requires WellFormed(layout) && layout != []
    ensures WellFormed(layout[1..])
  {
    var tail := layout[1..];
    forall i | 0 <= i < |tail| && tail[i].Blank?
      ensures i + 1 < |tail| && (tail[i + 1].Day? || tail[i + 1].Month? || tail[i + 1].Year?)
    {
      assert layout[i + 1].Blank?;
    }
  }

  lemma {:induction false} CutSpaceAppend(p: string, rest: string)
    requires forall k :: 0 <= k < |p| ==> p[k] == ' '
    requires rest == [] || rest[0] != ' '
    ensures CutSpace(p + rest) == rest
  {
    if p == [] {
      assert p + rest == rest;
    } else {
      assert (p + rest)[0] == ' ' && (p + rest)[1..] == p[1..] + rest;
      CutSpaceAppend(p[1..], rest);
    }
  }

  lemma GetNumAppend(p: string, rest: string, fixed: bool)
    requires AllDigits(p) && (if fixed then |p| == 2 else 1 <= |p| <= 2)
    requires rest == [] || !IsDigit(rest[0])
    ensures GetNum(p + rest, fixed) == Some((DecimalValue(p), rest))
  {
    var s := p + rest;
    assert s[..|p|] == p && s[|p|..] == rest;
    if |p| == 1 {
      assert |s| == 1 || s[1] == rest[0];
    }
  }

  // ---------------------------------------------------------------- the parser against the declarative cut

  /** One step of the parser over a fitting front piece, when what follows cannot be mistaken for more of it. */
  lemma ScanStep(layout: Layout, p: string, rest: string, acc: Fields)
    requires layout != [] && Fits(layout[0], p)
    requires (layout[0].Day? || layout[0].Month?) ==> rest == [] || !IsDigit(rest[0])
    requires layout[0].Blank? ==> rest == [] || rest[0] != ' '
    ensures Scan(layout, p + rest, acc) == Scan(layout[1..], rest, Assign(layout[0], p, acc))
  {
    var s := p + rest;
    match layout[0]
    case Dot =>
      assert s[0] == '.' && s[1..] == rest;
    case Blank =>
      assert s[0] == ' ';
      CutSpaceAppend(p, rest);
    case Day(fixed) =>
      GetNumAppend(p, rest, fixed);
    case Month(fixed) =>
      GetNumAppend(p, rest, fixed);
    case Year =>
      assert s[..4] == p && s[4..] == rest;
  }

  /** Every cut of the input that fits the layout is read back by the parser, field by field. */
  lemma {:induction false} ScanComplete(layout: Layout, pieces: seq<string>, acc: Fields)
    requires WellFormed(layout) && Matches(layout, pieces)
    ensures Scan(layout, Concat(pieces), acc) == Some(Fill(layout, pieces, acc))
    decreases |layout|
  {
    if layout != [] {
      ConcatHead(layout, pieces);
      NextChar(layout, pieces);
      WellFormedTail(layout);
      ScanStep(layout, pieces[0], Concat(pieces[1..]), acc);
      ScanComplete(layout[1..], pieces[1..], Assign(layout[0], pieces[0], acc));
    }
  }

  /** After a space, a well-formed layout needs a digit, so an exhausted input fails. */
  lemma ScanEmptyAfterBlank(layout: Layout, acc: Fields)
    requires WellFormed(layout) && |layout| >= 2 && layout[0].Blank?
    ensures Scan(layout[1..], [], acc).None?
  {
  }

  /** One step of the parser: the front piece it consumes and what it continues with. */
  lemma ScanHead(layout: Layout, s: string, acc: Fields) returns (p: string, rest: string)
    requires WellFormed(layout) && layout != [] && Scan(layout, s, acc).Some?
    ensures Fits(layout[0], p) && s == p + rest
    ensures Scan(layout[1..], rest, Assign(layout[0], p, acc)) == Scan(layout, s, acc)
  {
    match layout[0]
    case Dot =>
      p, rest := ".", s[1..];
      assert s == p + rest;
    case Blank =>
      rest := CutSpace(s);
      p := s[..|s| - |rest|];
      if s == [] {
        ScanEmptyAfterBlank(layout, acc);
      }
      assert s == p + rest;
    case Day(fixed) =>
      var read := GetNum(s, fixed).value;
      rest := read.1;
      p := s[..|s| - |rest|];
      assert s == p + rest;
    case Month(fixed) =>
      var read := GetNum(s, fixed).value;
      rest := read.1;
      p := s[..|s| - |rest|];
      assert s == p + rest;
    case Year =>
      p, rest := s[..4], s[4..];
      assert s == p + rest;
  }

  /** Whatever the parser accepts can be cut into pieces that fit the layout and denote what it read. */
  lemma {:induction false} ScanSound(layout: Layout, s: string, acc: Fields) returns (pieces: seq<string>)
    requires WellFormed(layout) && Scan(layout, s, acc).Some?
    ensures Matches(layout, pieces) && Concat(pieces) == s
    ensures Fill(layout, pieces, acc) == Scan(layout, s, acc).value
    decreases |layout|
  {
    if layout == [] {
      pieces := [];
    } else {
      WellFormedTail(layout);
      var p, rest := ScanHead(layout, s, acc);
      var tail := ScanSound(layout[1..], rest, Assign(layout[0], p, acc));
      pieces := [p] + tail;
      assert pieces[0] == p && pieces[1..] == tail;
    }
  }

  lemma SplitDigits(x: string, y: string, x': string, y': string)
    requires AllDigits(x) && AllDigits(x')
    requires y == [] || !IsDigit(y[0])
    requires y' == [] || !IsDigit(y'[0])
    requires x + y == x' + y'
    ensures x == x' && y == y'
  {
    DigitRunOfDigits(x, y);
    DigitRunOfDigits(x', y');
    assert (x + y)[..|x|] == x && (x' + y')[..|x'|] == x';
    assert (x + y)[|x|..] == y && (x' + y')[|x'|..] == y';
  }

  lemma SplitSpaces(x: string, y: string, x': string, y': string)
    requires forall k :: 0 <= k < |x| ==> x[k] == ' '
    requires forall k :: 0 <= k < |x'| ==> x'[k] == ' '
    requires y == [] || y[0] != ' '
    requires y' == [] || y'[0] != ' '
    requires x + y == x' + y'
    ensures x == x' && y == y'
  {
    CutSpaceAppend(x, y);
    CutSpaceAppend(x', y');
    assert |x| == |x'|;
    assert (x + y)[..|x|] == x && (x' + y')[..|x'|] == x';
  }

  lemma SplitAt(x: string, y: string, x': string, y': string)
    requires |x| == |x'| && x + y == x' + y'
    ensures x == x' && y == y'
  {
    assert (x + y)[..|x|] == x && (x' + y')[..|x'|] == x';
    assert (x + y)[|x|..] == y && (x' + y')[|x'|..] == y';
  }

  /** The first role of a non-empty well-formed layout: its first element's, or after a space the next one's. */
  lemma FirstRole(layout: Layout)
    requires WellFormed(layout) && layout != []
    ensures Roles(layout) != []
    ensures layout[0].Blank? ==>
      |layout| >= 2 && (layout[1].Day? || layout[1].Month? || layout[1].Year?) && Roles(layout) == Roles(layout[1..])
    ensures !layout[0].Blank? ==> Roles(layout)[0] == Role(layout[0]) && Roles(layout)[1..] == Roles(layout[1..])
  {
    if layout[0].Blank? {
      assert !layout[1].Blank?;
    }
  }

  /** An input starts with a space exactly when its layout starts with one. */
  lemma LeadChar(layout: Layout, pieces: seq<string>)
    requires Matches(layout, pieces) && layout != []
    ensures Concat(pieces) != [] && (Concat(pieces)[0] == ' ' <==> layout[0].Blank?)
  {
    ConcatHead(layout, pieces);
    assert Fits(layout[0], pieces[0]);
  }

  /** Equal roles of two layouts that agree on a leading space: equal first roles and equal remaining roles. */
  lemma HeadRoles(a: Layout, b: Layout)
    requires WellFormed(a) && WellFormed(b) && a != [] && b != []
    requires Roles(a) == Roles(b) && a[0].Blank? == b[0].Blank?
    ensures Role(a[0]) == Role(b[0])
    ensures Roles(a[1..]) == Roles(b[1..])
  {
    FirstRole(a);
    FirstRole(b);
  }

  /** Two cuts of one input by layouts with the same first role cut off the same first piece. */
  lemma HeadPieces(a: Layout, p: seq<string>, b: Layout, q: seq<string>)
    requires WellFormed(a) && WellFormed(b) && Matches(a, p) && Matches(b, q)
    requires Concat(p) == Concat(q) && a != [] && b != [] && Role(a[0]) == Role(b[0])
    ensures p[0] == q[0] && Concat(p[1..]) == Concat(q[1..])
  {
    ConcatHead(a, p);
    NextChar(a, p);
    ConcatHead(b, q);
    NextChar(b, q);
    var x, y, x', y' := p[0], Concat(p[1..]), q[0], Concat(q[1..]);
    if a[0].Blank? {
      SplitSpaces(x, y, x', y');
    } else if a[0].Day? || a[0].Month? {
      SplitDigits(x, y, x', y');
    } else {
      SplitAt(x, y, x', y');
    }
  }

  /**
   * Two non-empty well-formed layouts with the same roles that both accept one
   * input cut off the same first piece, and it sets the same field.
   */
  lemma HeadsAgree(a: Layout, p: seq<string>, b: Layout, q: seq<string>, acc: Fields)
    requires WellFormed(a) && WellFormed(b) && Matches(a, p) && Matches(b, q)
    requires Concat(p) == Concat(q) && Roles(a) == Roles(b) && a != [] && b != []
    ensures p[0] == q[0] && Concat(p[1..]) == Concat(q[1..])
    ensures Roles(a[1..]) == Roles(b[1..])
    ensures Assign(a[0], p[0], acc) == Assign(b[0], q[0], acc)
  {
    LeadChar(a, p);
    LeadChar(b, q);
    HeadRoles(a, b);
    HeadPieces(a, p, b, q);
  }

  /**
   * Two well-formed layouts with the same roles that both accept one input
   * read the same fields from it: the spaces and the widths of the numbers
   * are fixed by the input itself.
   */
  lemma {:induction false} FillAgrees(a: Layout, p: seq<string>, b: Layout, q: seq<string>, acc: Fields)
    requires WellFormed(a) && WellFormed(b) && Matches(a, p) && Matches(b, q)
    requires Concat(p) == Concat(q) && Roles(a) == Roles(b)
    ensures Fill(a, p, acc) == Fill(b, q, acc)
    decreases |a| + |b|
  {
    if a != [] {
      FirstRole(a);
    }
    if b != [] {
      FirstRole(b);
    }
    if a != [] && b != [] {
      HeadsAgree(a, p, b, q, acc);
      ConcatHead(a, p);
      ConcatHead(b, q);
      WellFormedTail(a);
      WellFormedTail(b);
      FillAgrees(a[1..], p[1..], b[1..], q[1..], Assign(a[0], p[0], acc));
    }
  }

  /** A layout with a day and a month sets both; the year always stays within four digits. */
  lemma {:induction false} FillSets(layout: Layout, pieces: seq<string>, acc: Fields, iDay: int, iMonth: int)
    requires Matches(layout, pieces) && 0 <= acc.year <= 9999
    requires iDay < 0 ==> acc.day >= 0
    requires iDay >= 0 ==> iDay < |layout| && layout[iDay].Day?
    requires iMonth < 0 ==> acc.month >= 0
    requires iMonth >= 0 ==> iMonth < |layout| && layout[iMonth].Month?
    ensures var f := Fill(layout, pieces, acc); f.day >= 0 && f.month >= 0 && 0 <= f.year <= 9999
    decreases |layout|
  {
    if layout != [] {
      assert Pow10(4) == 10000;
      FillSets(layout[1..], pieces[1..], Assign(layout[0], pieces[0], acc), iDay - 1, iMonth - 1);
    }
  }

  /** For the four layouts, parsing a cut input succeeds exactly when the date it denotes is valid. */
  lemma ParseWithCut(k: nat, pieces: seq<string>)
    requires k < |Layouts| && Matches(Layouts[k], pieces)
    ensures ParseWith(Layouts[k], Concat(pieces)) == if ValidDate(DateOf(Layouts[k], pieces)) then Some(DateOf(Layouts[k], pieces)) else None
  {
    LayoutsShape();
    ScanComplete(Layouts[k], pieces, Unset);
    FillSets(Layouts[k], pieces, Unset, 0, if k < 2 then 3 else 2);
  }

  lemma {:induction false} FirstParseFinds(ls: seq<Layout>, t: string, k: nat, d: Date)
    requires k < |ls| && ParseWith(ls[k], t) == Some(d)
    requires forall j :: 0 <= j < k && ParseWith(ls[j], t).Some? ==> ParseWith(ls[j], t) == Some(d)
    ensures FirstParse(ls, t) == Some(d)
  {
    var first := ParseWith(ls[0], t);
    if k == 0 {
      assert first == Some(d);
    } else if first.Some? {
      assert first == Some(d);
    } else {
      var rest := ls[1..];
      assert FirstParse(ls, t) == FirstParse(rest, t);
      assert forall j :: 0 <= j < |rest| ==> rest[j] == ls[j + 1];
      FirstParseFinds(rest, t, k - 1, d);
    }
  }

  lemma {:induction false} FirstParseWhich(ls: seq<Layout>, t: string) returns (k: nat)
    requires FirstParse(ls, t).Some?
    ensures k < |ls| && ParseWith(ls[k], t) == FirstParse(ls, t)
  {
    if ParseWith(ls[0], t).Some? {
      k := 0;
    } else {
      var k' := FirstParseWhich(ls[1..], t);
      k := k' + 1;
    }
  }

  /** Two of the four layouts never disagree on an input both accept. */
  lemma LayoutsAgree(j: nat, k: nat, t: string)
    requires j < |Layouts| && k < |Layouts|
    requires ParseWith(Layouts[j], t).Some? && ParseWith(Layouts[k], t).Some?
    ensures ParseWith(Layouts[j], t) == ParseWith(Layouts[k], t)
  {
    LayoutsShape();
    var p := ScanSound(Layouts[j], t, Unset);
    var q := ScanSound(Layouts[k], t, Unset);
    FillAgrees(Layouts[j], p, Layouts[k], q, Unset);
  }

  // ---------------------------------------------------------------- ParseDate

  /**
   * Completeness: an input whose trimmed form is cut to fit one of the four
   * layouts, denoting a valid date, parses to that date.
   */
  lemma ParseDateComplete(s: string, k: nat, pieces: seq<string>)
    requires k < |Layouts| && Matches(Layouts[k], pieces)
    requires Concat(pieces) == TrimSpace(s)
    requires ValidDate(DateOf(Layouts[k], pieces))
    ensures ParseDate(s) == Some(DateOf(Layouts[k], pieces))
  {
    var t := TrimSpace(s);
    var d := DateOf(Layouts[k], pieces);
    ConcatHead(Layouts[k], pieces);
    ParseWithCut(k, pieces);
    forall j | 0 <= j < k && ParseWith(Layouts[j], t).Some?
      ensures ParseWith(Layouts[j], t) == Some(d)
    {
      LayoutsAgree(j, k, t);
    }
    FirstParseFinds(Layouts, t, k, d);
  }

  /** Soundness: whatever ParseDate accepts is a trimmed input cut to fit one of the four layouts. */
  lemma ParseDateSound(s: string) returns (k: nat, pieces: seq<string>)
    requires ParseDate(s).Some?
    ensures k < |Layouts| && Matches(Layouts[k], pieces)
    ensures Concat(pieces) == TrimSpace(s)
    ensures ParseDate(s) == Some(DateOf(Layouts[k], pieces))
  {
    var t := TrimSpace(s);
    LayoutsShape();
    k := FirstParseWhich(Layouts, t);
    pieces := ScanSound(Layouts[k], t, Unset);
    ParseWithCut(k, pieces);
  }

  /** ParseDate trims first, so trimming beforehand changes nothing. */
  lemma ParseDateTrimmed(s: string)
    ensures ParseDate(TrimSpace(s)) == ParseDate(s)
  {
    TrimSpaceIdempotent(s);
  }

  /** The fourth layout, "02.01.2006", accepts nothing the third does not already read the same way. */
  lemma ZeroPaddedSubsumed(t: string)
    requires ParseWith(ZeroPadded, t).Some?
    ensures ParseWith(Compact, t) == ParseWith(ZeroPadded, t)
  {
    LayoutsShape();
    assert Layouts[2] == Compact && Layouts[3] == ZeroPadded;
    var p := ScanSound(ZeroPadded, t, Unset);
    assert Matches(Compact, p);
    ParseWithCut(2, p);
    ParseWithCut(3, p);
    FillAgrees(Compact, p, ZeroPadded, p, Unset);
  }

  /**
   * The inclusion is strict: the fourth layout needs two-digit day and month
   * fields, so a one-digit day, as in "1.2.2020", is read by the third only.
   */
  lemma ZeroPaddedStricter(d: char, m: char, y: string)
    requires '1' <= d <= '9' && '1' <= m <= '9' && |y| == 4 && AllDigits(y)
    ensures ParseWith(ZeroPadded, [d, '.', m, '.'] + y).None?
    ensures ParseWith(Compact, [d, '.', m, '.'] + y).Some?
  {
    var t := [d, '.', m, '.'] + y;
    assert t[1] == '.' && GetNum(t, true).None?;
    assert ZeroPadded[0] == Day(true);
    var day, month := DigitValue(d), DigitValue(m);
    assert GetNum(t, false) == Some((day, t[1..]));
    assert GetNum(t[2..], false) == Some((month, t[3..]));
    assert t[1..][1..] == t[2..] && t[3..][1..] == y;
    assert Compact[1..][1..] == Compact[2..] && Compact[3..][1..] == [Year];
    ScanYearAlone(y, Fields(0, month, day));
    var read := Scan(Compact[3..], t[3..], Fields(0, month, day));
    assert read == Some(Fields(DecimalValue(y), month, day));
    assert Scan(Compact[2..], t[2..], Fields(0, -1, day)) == read;
    assert Scan(Compact[1..], t[1..], Fields(0, -1, day)) == read;
    assert Scan(Compact, t, Unset) == read;
  }

  /** A layout that is only the year reads four digits. */
  lemma ScanYearAlone(s: string, acc: Fields)
    requires |s| == 4 && AllDigits(s)
    ensures Scan([Year], s, acc) == Some(acc.(year := DecimalValue(s)))
  {
    assert s[..4] == s && s[4..] == [] && [Year][1..] == [];
    assert IsDigit(s[0]);
  }

  // ---------------------------------------------------------------- writing dates back

  /** How the site writes a date in a given layout: numbers without padding unless the layout pads. */
  function Piece(e: Element, d: Date): (p: string)
    requires ValidDate(d)
    ensures Fits(e, p)
  {
    match e
    case Day(fixed) => Padded(d.day, if fixed || d.day >= 10 then 2 else 1)
    case Month(fixed) => Padded(d.month, if fixed || d.month >= 10 then 2 else 1)
    case Year => Padded(d.year, 4)
    case Dot => "."
    case Blank => " "
  }

  function Pieces(layout: Layout, d: Date): (pieces: seq<string>)
    requires ValidDate(d)
    ensures Matches(layout, pieces)
  {
    seq(|layout|, i requires 0 <= i < |layout| => Piece(layout[i], d))
  }

  /** `d` formatted with one of the four layouts, e.g. "20. 9. 2025" or "20.09.2025". */
  function Format(d: Date, k: nat): string
    requires ValidDate(d) && k < |Layouts|
  {
    Concat(Pieces(Layouts[k], d))
  }

  /** The number a written piece denotes is the field it was written from. */
  lemma PieceValue(e: Element, d: Date, acc: Fields)
    requires ValidDate(d)
    ensures e.Day? ==> Assign(e, Piece(e, d), acc) == acc.(day := d.day)
    ensures e.Month? ==> Assign(e, Piece(e, d), acc) == acc.(month := d.month)
    ensures e.Year? ==> Assign(e, Piece(e, d), acc) == acc.(year := d.year)
    ensures e.Dot? || e.Blank? ==> Assign(e, Piece(e, d), acc) == acc
  {
    assert Pow10(1) == 10 && Pow10(2) == 100 && Pow10(4) == 10000;
    match e
    case Day(fixed) => PaddedValue(d.day, if fixed || d.day >= 10 then 2 else 1);
    case Month(fixed) => PaddedValue(d.month, if fixed || d.month >= 10 then 2 else 1);
    case Year => PaddedValue(d.year, 4);
    case _ =>
  }

  lemma {:induction false} FillPieces(layout: Layout, d: Date, acc: Fields, iDay: int, iMonth: int, iYear: int)
    requires ValidDate(d)
    requires iDay < 0 ==> acc.day == d.day
    requires iDay >= 0 ==> iDay < |layout| && layout[iDay].Day?
    requires iMonth < 0 ==> acc.month == d.month
    requires iMonth >= 0 ==> iMonth < |layout| && layout[iMonth].Month?
    requires iYear < 0 ==> acc.year == d.year
    requires iYear >= 0 ==> iYear < |layout| && layout[iYear].Year?
    ensures Fill(layout, Pieces(layout, d), acc) == Fields(d.year, d.month, d.day)
    decreases |layout|
  {
    if layout != [] {
      var pieces := Pieces(layout, d);
      assert pieces[0] == Piece(layout[0], d);
      assert pieces[1..] == Pieces(layout[1..], d);
      PieceValue(layout[0], d, acc);
      FillPieces(layout[1..], d, Assign(layout[0], pieces[0], acc), iDay - 1, iMonth - 1, iYear - 1);
    }
  }

  lemma {:induction false} ConcatLast(layout: Layout, pieces: seq<string>)
    requires Matches(layout, pieces) && layout != []
    ensures Concat(pieces) != []
    ensures Concat(pieces)[|Concat(pieces)| - 1] == pieces[|pieces| - 1][|pieces[|pieces| - 1]| - 1]
  {
    ConcatHead(layout, pieces);
    if |layout| > 1 {
      ConcatLast(layout[1..], pieces[1..]);
    }
  }

  /** A written date holds only digits, dots and spaces. */
  lemma {:induction false} ConcatChars(layout: Layout, pieces: seq<string>)
    requires Matches(layout, pieces)
    ensures forall c :: c in Concat(pieces) ==> IsDigit(c) || c == '.' || c == ' '
  {
    if layout != [] {
      ConcatHead(layout, pieces);
      ConcatChars(layout[1..], pieces[1..]);
    }
  }

  /** A written date starts and ends with a digit and holds no `|`. */
  lemma FormatShape(d: Date, k: nat)
    requires ValidDate(d) && k < |Layouts|
    ensures Format(d, k) != []
    ensures IsDigit(Format(d, k)[0]) && IsDigit(Format(d, k)[|Format(d, k)| - 1])
    ensures '|' !in Format(d, k)
  {
    var layout := Layouts[k];
    var pieces := Pieces(layout, d);
    ConcatHead(layout, pieces);
    ConcatLast(layout, pieces);
    ConcatChars(layout, pieces);
  }

  /** Round trip: every valid date written in any of the four layouts parses back to itself. */
  lemma FormatRoundTrip(d: Date, k: nat)
    requires ValidDate(d) && k < |Layouts|
    ensures ParseDate(Format(d, k)) == Some(d)
  {
    var layout := Layouts[k];
    var pieces := Pieces(layout, d);
    var s := Format(d, k);
    ConcatHead(layout, pieces);
    ConcatLast(layout, pieces);
    assert IsDigit(s[0]) && IsDigit(s[|s| - 1]);
    TrimSpaceOfTrimmed(s);
    FillPieces(layout, d, Unset, 0, if k < 2 then 3 else 2, |layout| - 1);
    ParseDateComplete(s, k, pieces);
  }
}

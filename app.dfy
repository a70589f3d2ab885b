/** The application-state rules of the tracker's page script
    (scripts/app.js): the category colour hash, the chart's spline path,
    the dashboard carousel, and the handlers that change the stored state
    (budget and cap reconciliation, adding, editing and deleting records,
    the cap, budget and rate inputs, clearing and importing). Browser
    input arrives as parameters: `None` stands for a `parseFloat` that
    gave `NaN`, ids and timestamps are passed in. */
module App {
  import opened Seqs
  import opened Text
  import opened Calendar
  import opened Ledger
  import opened Currency
  import opened Search
  import opened Validators
  import opened ImportExport

  // ----- catColor ----------------------------------------------------------

  /** `PALETTE`. */
  const Palette: seq<string> := [
    "#6366f1", "#10b981", "#f59e0b", "#ef4444", "#8b5cf6",
    "#06b6d4", "#f97316", "#84cc16", "#ec4899", "#14b8a6"]

  const TwoTo32: int := 0x1_0000_0000

  /** `c.charCodeAt(0)` for a character `for..of` yields: the character's
      code, or the high surrogate of its UTF-16 pair above U+FFFF. */
  function CodeUnit0(c: char): (u: int)
    ensures 0 <= u < 0x10000
    ensures c as int < 0x10000 ==> u == c as int
  {
    if c as int < 0x10000 then c as int else 0xD800 + (c as int - 0x10000) / 0x400
  }

  /** `x & 0xffffffff` on an integer: its 32-bit two's-complement value. */
  function ToInt32(x: int): (r: int)
    ensures -0x8000_0000 <= r < 0x8000_0000
    ensures (x - r) % TwoTo32 == 0
  {
    var m := x % TwoTo32;
    if m >= 0x8000_0000 then m - TwoTo32 else m
  }

  /** The value of `hash` after the loop has read the characters of `s`. */
  function HashOf(s: string): int
    decreases |s|
  {
    if s == [] then 0 else ToInt32(HashOf(s[..|s| - 1]) * 31 + CodeUnit0(s[|s| - 1]))
  }

  /** The polynomial hash without wrap-around: sum of code units times powers of 31. */
  function PolyHash(s: string): int
    decreases |s|
  {
    if s == [] then 0 else PolyHash(s[..|s| - 1]) * 31 + CodeUnit0(s[|s| - 1])
  }

  lemma MultipleStep(a: int, b: int, r: int, c: int)
    requires (a - b) % TwoTo32 == 0
    requires (b * 31 + c - r) % TwoTo32 == 0
    ensures (a * 31 + c - r) % TwoTo32 == 0
  {
    var k := (a - b) / TwoTo32;
    var l := (b * 31 + c - r) / TwoTo32;
    assert a - b == TwoTo32 * k;
    assert b * 31 + c - r == TwoTo32 * l;
    assert a * 31 + c - r == TwoTo32 * (31 * k + l);
  }

  /** The loop's hash is the polynomial hash reduced to 32 bits. */
  lemma {:induction false} HashIsPolyHash(s: string)
    ensures -0x8000_0000 <= HashOf(s) < 0x8000_0000
    ensures (PolyHash(s) - HashOf(s)) % TwoTo32 == 0
    decreases |s|
  {
    if s != [] {
      var p := s[..|s| - 1];
      HashIsPolyHash(p);
      MultipleStep(PolyHash(p), HashOf(p), HashOf(s), CodeUnit0(s[|s| - 1]));
    }
  }

  /** `Math.abs(hash) % PALETTE.length`. */
  function ColorIndex(cat: string): (k: int)
    ensures 0 <= k < |Palette|
  {
    var h := HashOf(cat);
    (if h < 0 then -h else h) % |Palette|
  }

  /** `catColor`: a palette entry, fixed by the category text alone. */
  method CatColor(cat: string) returns (color: string)
    ensures color == Palette[ColorIndex(cat)]
    ensures color in Palette
  {
    var hash := 0;
    for i := 0 to |cat|
      invariant hash == HashOf(cat[..i])
    {
      assert cat[..i + 1][..i] == cat[..i];
      hash := ToInt32(hash * 31 + CodeUnit0(cat[i]));
    }
    assert cat[..|cat|] == cat;
    var abs := if hash < 0 then -hash else hash;
    color := Palette[abs % |Palette|];
  }

  /** "Food" is drawn in the third palette colour. */
  lemma FoodColor()
    ensures ColorIndex("Food") == 2 && Palette[ColorIndex("Food")] == "#f59e0b"
  {
    var s := "Food";
    assert s[..3] == "Foo" && "Foo"[..2] == "Fo" && "Fo"[..1] == "F" && "F"[..0] == "";
    assert HashOf("F") == 70;
    assert HashOf("Fo") == 2281;
    assert HashOf("Foo") == 70822;
    assert HashOf("Food") == 2195582;
  }

  // ----- cardinalSpline ----------------------------------------------------

  datatype Point = Point(x: real, y: real)

  /** One `C` command: two control points and the end point. */
  datatype Segment = Segment(control1: Point, control2: Point, end: Point)

  /** The path: `""` for fewer than two points, otherwise a move to the
      start followed by cubic segments. */
  datatype Path = NoPath | Path(start: Point, segments: seq<Segment>)

  /** `typeof tension === "number" ? tension : 0.5`. */
  function TensionOf(tension: Option<real>): real {
    if tension.Some? then tension.value else 0.5
  }

  function Plus(p: Point, q: Point): Point { Point(p.x + q.x, p.y + q.y) }

  function Minus(p: Point, q: Point): Point { Point(p.x - q.x, p.y - q.y) }

  function Scale(k: real, p: Point): Point { Point(k * p.x, k * p.y) }

  /** The requirement on segment `i`: it runs from `points[i]` to
      `points[i+1]`, its control points offset by one sixth of the tension
      times the chord of the neighbours, the missing neighbour at either
      end replaced by the end point itself. */
  function SplineSegment(points: seq<Point>, t: real, i: int): Segment
    requires 0 <= i < |points| - 1
  {
    var p0 := if i == 0 then points[0] else points[i - 1];
    var p1, p2 := points[i], points[i + 1];
    var p3 := if i == |points| - 2 then p2 else points[i + 2];
    CurveTo(p0, p1, p2, p3, t)
  }

  /** The `C` command from `p1` to `p2` between neighbours `p0` and `p3`:
      `cp1 = p1 + (p2 - p0) / 6 * tension`, `cp2 = p2 - (p3 - p1) / 6 * tension`. */
  function CurveTo(p0: Point, p1: Point, p2: Point, p3: Point, t: real): Segment {
    Segment(Point(p1.x + (p2.x - p0.x) / 6.0 * t, p1.y + (p2.y - p0.y) / 6.0 * t),
            Point(p2.x - (p3.x - p1.x) / 6.0 * t, p2.y - (p3.y - p1.y) / 6.0 * t), p2)
  }

  /** `cardinalSpline` (its `close` argument is unused). */
  method CardinalSpline(points: seq<Point>, tension: Option<real>) returns (path: Path)
    ensures |points| < 2 <==> path == NoPath
    ensures path.Path? ==>
      && path.start == points[0]
      && |path.segments| == |points| - 1
      && (forall i :: 0 <= i < |path.segments| ==>
            path.segments[i] == SplineSegment(points, TensionOf(tension), i)
            && path.segments[i].end == points[i + 1])
      && path.segments[|path.segments| - 1].end == points[|points| - 1]
  {
    if |points| < 2 {
      return NoPath;
    }
    var t := if tension.Some? then tension.value else 0.5;
    var segments: seq<Segment> := [];
    var i := 0;
    while i < |points| - 1
      invariant 0 <= i <= |points| - 1
      invariant |segments| == i
      invariant forall j :: 0 <= j < i ==> segments[j] == SplineSegment(points, t, j)
    {
      var p0 := if i == 0 then points[0] else points[i - 1];
      var p1 := points[i];
      var p2 := points[i + 1];
      var p3 := if i == |points| - 2 then p2 else points[i + 2];
      var seg := CurveTo(p0, p1, p2, p3, t);
      assert seg == SplineSegment(points, t, i);
      PushSegment(segments, points, t, seg);
      segments := segments + [seg];
      i := i + 1;
    }
    path := Path(points[0], segments);
  }

  lemma PushSegment(segments: seq<Segment>, points: seq<Point>, t: real, seg: Segment)
    requires |segments| < |points| - 1 && seg == SplineSegment(points, t, |segments|)
    requires forall j :: 0 <= j < |segments| ==> segments[j] == SplineSegment(points, t, j)
    ensures var r := segments + [seg];
      forall j :: 0 <= j < |r| ==> r[j] == SplineSegment(points, t, j)
  {
    var r := segments + [seg];
    forall j | 0 <= j < |r| ensures r[j] == SplineSegment(points, t, j) {
      if j < |segments| {
        assert r[j] == segments[j];
      } else {
        assert r[j] == seg;
      }
    }
  }

  /** `d / 6 * t`, as the source writes it, is `d` scaled by `t / 6`. */
  lemma SixthOfTension(d: real, t: real)
    ensures d / 6.0 * t == t / 6.0 * d
  {
    assert d / 6.0 * t == (d * t) / 6.0;
  }

  /** The control points in vector form: the start plus, and the end minus,
      `t / 6` times the chord between the two neighbours. */
  lemma CurveToVector(p0: Point, p1: Point, p2: Point, p3: Point, t: real)
    ensures CurveTo(p0, p1, p2, p3, t).control1 == Plus(p1, Scale(t / 6.0, Minus(p2, p0)))
    ensures CurveTo(p0, p1, p2, p3, t).control2 == Minus(p2, Scale(t / 6.0, Minus(p3, p1)))
  {
    var c := CurveTo(p0, p1, p2, p3, t);
    var u, v := Scale(t / 6.0, Minus(p2, p0)), Scale(t / 6.0, Minus(p3, p1));
    SixthOfTension(p2.x - p0.x, t);
    SixthOfTension(p2.y - p0.y, t);
    SixthOfTension(p3.x - p1.x, t);
    SixthOfTension(p3.y - p1.y, t);
    assert c.control1.x == p1.x + u.x && c.control1.y == p1.y + u.y;
    assert c.control2.x == p2.x - v.x && c.control2.y == p2.y - v.y;
  }

  /** Two consecutive curves through `b` leave and enter it along the same
      chord, in opposite directions. */
  lemma MirroredControls(p0: Point, a: Point, b: Point, c: Point, p3: Point, t: real)
    ensures Plus(CurveTo(p0, a, b, c, t).control2, CurveTo(a, b, c, p3, t).control1) == Scale(2.0, b)
  {
    var dx, dy := (c.x - a.x) / 6.0 * t, (c.y - a.y) / 6.0 * t;
    assert CurveTo(p0, a, b, c, t).control2 == Point(b.x - dx, b.y - dy);
    assert CurveTo(a, b, c, p3, t).control1 == Point(b.x + dx, b.y + dy);
  }

  /** At each interior point the incoming and outgoing control points are
      mirror images, so the curve has no corner there. */
  lemma SplineSmooth(points: seq<Point>, t: real, i: int)
    requires 0 <= i < |points| - 2
    ensures Plus(SplineSegment(points, t, i).control2, SplineSegment(points, t, i + 1).control1)
         == Scale(2.0, points[i + 1])
  {
    var p0 := if i == 0 then points[0] else points[i - 1];
    var p3 := if i + 1 == |points| - 2 then points[i + 2] else points[i + 3];
    MirroredControls(p0, points[i], points[i + 1], points[i + 2], p3, t);
  }

  /** The first segment leaves the start towards the second point, and the
      last one arrives at the end coming from the second-to-last point. */
  lemma SplineEnds(points: seq<Point>, t: real)
    requires |points| >= 2
    ensures var n := |points|;
      && SplineSegment(points, t, 0).control1 == Plus(points[0], Scale(t / 6.0, Minus(points[1], points[0])))
      && SplineSegment(points, t, n - 2).control2 == Minus(points[n - 1], Scale(t / 6.0, Minus(points[n - 1], points[n - 2])))
  {
    var n := |points|;
    CurveToVector(points[0], points[0], points[1], if n == 2 then points[1] else points[2], t);
    CurveToVector(if n == 2 then points[0] else points[n - 3], points[n - 2], points[n - 1], points[n - 1], t);
  }

  /** With tension 0 every segment is the straight chord: its control points
      are its end points. */
  lemma SplineTensionZero(points: seq<Point>, i: int)
    requires 0 <= i < |points| - 1
    ensures SplineSegment(points, 0.0, i).control1 == points[i]
    ensures SplineSegment(points, 0.0, i).control2 == points[i + 1]
  {
  }

  // ----- dashboard carousel ------------------------------------------------

  /** The month the dashboard carousel shows, 0 (six months back) to 6 (the
      current month) of the seven-month window. */
  class Carousel {
    var index: int

    ghost predicate Valid()
      reads this
    {
      0 <= index <= 6
    }

    /** `let dashboardCarouselIndex = 6`. */
    constructor ()
      ensures Valid() && index == 6
    {
      index := 6;
    }

    /** The "previous" button: one month back unless already at the oldest. */
    method Prev()
      requires Valid()
      modifies this
      ensures Valid()
      ensures index == if old(index) > 0 then old(index) - 1 else old(index)
    {
      if index > 0 {
        index := index - 1;
      }
    }

    /** The "next" button: one month on unless already at the current month. */
    method Next()
      requires Valid()
      modifies this
      ensures Valid()
      ensures index == if old(index) < 6 then old(index) + 1 else old(index)
    {
      if index < 6 {
        index := index + 1;
      }
    }
  }

  // ----- records -----------------------------------------------------------

  /** The converted form data merged into a record: trimmed description and
      category, `Number(amount)`, and the day the date text names. */
  datatype Fields = Fields(description: string, amount: real, category: string, date: Date)

  /** The record `push`ed by the add branch; both timestamps are `now`. */
  function NewRecord(id: string, f: Fields, now: string): Transaction {
    Transaction(id, f.description, f.amount, f.category, f.date, now, now)
  }

  /** `{ ...t, ...data, amount, updatedAt: now }`: the id and creation time
      stay, everything the form holds is replaced. */
  function EditRecord(t: Transaction, f: Fields, now: string): Transaction {
    Transaction(t.id, f.description, f.amount, f.category, f.date, t.createdAt, now)
  }

  /** `findIndex(t => t.id === id)`. */
  function IndexOfId(ts: seq<Transaction>, id: string): (i: int)
    ensures -1 <= i < |ts|
    ensures i >= 0 ==> ts[i].id == id && forall j :: 0 <= j < i ==> ts[j].id != id
    ensures i < 0 ==> forall j :: 0 <= j < |ts| ==> ts[j].id != id
    decreases |ts|
  {
    if ts == [] then -1
    else if ts[0].id == id then 0
    else
      var j := IndexOfId(ts[1..], id);
      if j < 0 then -1 else j + 1
  }

  /** The list after the edit branch. */
  function EditTransactions(ts: seq<Transaction>, id: string, f: Fields, now: string): seq<Transaction> {
    var i := IndexOfId(ts, id);
    if i < 0 then ts else ts[i := EditRecord(ts[i], f, now)]
  }

  /** The edit changes only the first record with the id, keeps every
      record's id and creation time and the list's length, and does nothing
      when no record has the id. */
  lemma EditSpec(ts: seq<Transaction>, id: string, f: Fields, now: string)
    ensures var r := EditTransactions(ts, id, f, now); var i := IndexOfId(ts, id);
      && |r| == |ts|
      && (forall j :: 0 <= j < |ts| ==> r[j].id == ts[j].id && r[j].createdAt == ts[j].createdAt)
      && (forall j :: 0 <= j < |ts| && j != i ==> r[j] == ts[j])
      && (i < 0 <==> (forall j :: 0 <= j < |ts| ==> ts[j].id != id))
      && (i >= 0 ==> r[i].id == id && r[i].description == f.description && r[i].amount == f.amount
                     && r[i].category == f.category && r[i].date == f.date && r[i].updatedAt == now)
  {
  }

  /** `x => x.id !== id`. */
  function IdIsNot(id: string): Transaction -> bool {
    (t: Transaction) => t.id != id
  }

  /** All ids differ. */
  predicate UniqueIds(ts: seq<Transaction>) {
    forall i, j :: 0 <= i < j < |ts| ==> ts[i].id != ts[j].id
  }

  lemma {:induction false} FilterAppend(a: seq<Transaction>, b: seq<Transaction>, p: Transaction -> bool)
    ensures Filter(a + b, p) == Filter(a, p) + Filter(b, p)
    decreases |b|
  {
    if b == [] {
      assert a + b == a;
    } else {
      assert (a + b)[..|a + b| - 1] == a + b[..|b| - 1];
      FilterAppend(a, b[..|b| - 1], p);
    }
  }

  lemma {:induction false} FilterAll(ts: seq<Transaction>, p: Transaction -> bool)
    requires forall i :: 0 <= i < |ts| ==> p(ts[i])
    ensures Filter(ts, p) == ts
    decreases |ts|
  {
    if ts != [] {
      FilterAll(ts[..|ts| - 1], p);
    }
  }

  /** Deleting keeps exactly the records with other ids, in their order:
      deleting from a concatenation deletes from both parts. */
  lemma DeleteSpec(ts: seq<Transaction>, id: string)
    ensures forall t :: t in Filter(ts, IdIsNot(id)) <==> t in ts && t.id != id
    ensures forall a, b :: a + b == ts ==>
      Filter(ts, IdIsNot(id)) == Filter(a, IdIsNot(id)) + Filter(b, IdIsNot(id))
    ensures (forall j :: 0 <= j < |ts| ==> ts[j].id != id) ==> Filter(ts, IdIsNot(id)) == ts
  {
    FilterMembers(ts, IdIsNot(id));
    forall a, b | a + b == ts
      ensures Filter(ts, IdIsNot(id)) == Filter(a, IdIsNot(id)) + Filter(b, IdIsNot(id))
    {
      FilterAppend(a, b, IdIsNot(id));
    }
    if forall j :: 0 <= j < |ts| ==> ts[j].id != id {
      FilterAll(ts, IdIsNot(id));
    }
  }

  /** With unique ids, deleting a record's id removes that one record and
      nothing else. */
  lemma DeleteUnique(ts: seq<Transaction>, k: int)
    requires UniqueIds(ts) && 0 <= k < |ts|
    ensures Filter(ts, IdIsNot(ts[k].id)) == ts[..k] + ts[k + 1..]
  {
    var p := IdIsNot(ts[k].id);
    SplitAt(ts, k);
    OthersKept(ts, k);
    FilterRemovesOne(ts[..k], ts[k], ts[k + 1..], p);
  }

  /** Filtering out one element between two kept runs leaves the two runs. */
  lemma FilterRemovesOne(a: seq<Transaction>, x: Transaction, b: seq<Transaction>, p: Transaction -> bool)
    requires Filter(a, p) == a && !p(x) && Filter(b, p) == b
    ensures Filter(a + ([x] + b), p) == a + b
  {
    FilterAppend(a, [x] + b, p);
    FilterAppend([x], b, p);
    FilterDropsOne(x, p);
    assert [] + b == b;
  }

  lemma OthersKept(ts: seq<Transaction>, k: int)
    requires UniqueIds(ts) && 0 <= k < |ts|
    ensures Filter(ts[..k], IdIsNot(ts[k].id)) == ts[..k]
    ensures Filter(ts[k + 1..], IdIsNot(ts[k].id)) == ts[k + 1..]
  {
    var p, a, b := IdIsNot(ts[k].id), ts[..k], ts[k + 1..];
    forall i | 0 <= i < |a| ensures p(a[i]) {
      assert a[i] == ts[i];
    }
    FilterAll(a, p);
    forall i | 0 <= i < |b| ensures p(b[i]) {
      assert b[i] == ts[k + 1 + i];
    }
    FilterAll(b, p);
  }

  lemma FilterDropsOne(t: Transaction, p: Transaction -> bool)
    requires !p(t)
    ensures Filter([t], p) == []
  {
    assert [t][..0] == [];
  }

  /** Adding a record whose id is new keeps the ids unique. */
  lemma AddFresh(ts: seq<Transaction>, id: string, f: Fields, now: string)
    requires UniqueIds(ts) && forall j :: 0 <= j < |ts| ==> ts[j].id != id
    ensures var r := ts + [NewRecord(id, f, now)];
      UniqueIds(r) && |r| == |ts| + 1 && r[..|ts|] == ts && IndexOfId(r, id) == |ts|
  {
    var r := ts + [NewRecord(id, f, now)];
    assert r[|ts|].id == id;
    assert forall j :: 0 <= j < |ts| ==> r[j] == ts[j];
  }

  // ----- the form's conversions --------------------------------------------

  lemma {:induction false} Pow10Positive(w: nat)
    ensures Pow10(w) > 0
    decreases w
  {
    if w > 0 {
      Pow10Positive(w - 1);
    }
  }

  /** On accepted amount text the first `.`, if any, separates two digit runs. */
  lemma AmountParts(s: string)
    requires AmountPattern(s)
    ensures var i := IndexOf(s, '.');
      && (i < 0 ==> AllDigits(s))
      && (i >= 0 ==> AllDigits(s[..i]) && AllDigits(s[i + 1..]))
  {
    if !Canonical(s) {
      var j :| 0 < j < |s| && s[j] == '.' && Canonical(s[..j]) && 2 <= |s| - j <= 3 && AllDigits(s[j + 1..]);
      forall l | 0 <= l < j ensures s[l] != '.' {
        assert IsDigit(s[..j][l]);
      }
      assert '.' in s;
      assert IndexOf(s, '.') == j;
    }
  }

  /** `Number(s)` on text the amount pattern accepts: the integer part plus
      the fraction digits scaled down. */
  function NumberValue(s: string): real
    requires AmountPattern(s)
  {
    AmountParts(s);
    var i := IndexOf(s, '.');
    if i < 0 then ParseDigits(s) as real
    else
      Pow10Positive(|s| - i - 1);
      ParseDigits(s[..i]) as real + ParseDigits(s[i + 1..]) as real / Pow10(|s| - i - 1) as real
  }

  /** A whole number the amount field shows reads back as that number. */
  lemma NumberValueWhole(n: nat)
    ensures AmountPattern(NatToString(n)) && NumberValue(NatToString(n)) == n as real
  {
    var s := NatToString(n);
    WholeAmounts(n, s);
    ParseNatToString(n);
    assert IndexOf(s, '.') < 0;
  }

  /** "12.5" reads as 12.5. */
  lemma NumberValueExample()
    ensures AmountPattern("12.5") && NumberValue("12.5") == 12.5
  {
    AmountExamples();
    var s := "12.5";
    assert IndexOf(s, '.') == 2;
    DigitRunsOfExample();
    assert s[..2] == "12" && s[3..] == "5";
  }

  lemma DigitRunsOfExample()
    ensures ParseDigits("12") == 12 && ParseDigits("5") == 5
  {
    assert "12"[..1] == "1" && "1"[..0] == [];
    assert "5"[..0] == [];
  }

  /** The trimmed form data `validateAll` is given. */
  function TrimmedForm(raw: Form): Form {
    Form(Trim(raw.description), Trim(raw.amount), Trim(raw.category), raw.date)
  }

  /** The four field checks together. */
  predicate FormAccepted(data: Form) {
    DescriptionOk(data.description) && AmountPattern(data.amount)
    && CategoryPattern(data.category) && DatePattern(data.date)
  }

  // ----- plain-object helpers ----------------------------------------------

  lemma {:induction false} SumValuesNonNegative(e: Entries)
    requires forall j :: 0 <= j < |e| ==> e[j].1 >= 0.0
    ensures SumValues(e) >= 0.0
    decreases |e|
  {
    if e != [] {
      SumValuesNonNegative(e[..|e| - 1]);
    }
  }

  lemma FirstKeyAt(e: Entries, k: string, i: int)
    requires 0 <= i < |e| && e[i].0 == k
    requires forall j :: 0 <= j < i ==> e[j].0 != k
    ensures IndexOfKey(e, k) == i
  {
  }

  /** After `obj[k] = v`, reading `k` gives `v` and every other key reads as
      before. */
  lemma LookupPut(e: Entries, k: string, v: real)
    ensures Lookup(Put(e, k, v), k) == v
    ensures forall k' :: k' != k ==> Lookup(Put(e, k, v), k') == Lookup(e, k')
  {
    var r := Put(e, k, v);
    var i := IndexOfKey(e, k);
    if i < 0 {
      FirstKeyAt(r, k, |e|);
    } else {
      FirstKeyAt(r, k, i);
    }
    forall k' | k' != k ensures Lookup(r, k') == Lookup(e, k') {
      var j := IndexOfKey(e, k');
      if j >= 0 {
        FirstKeyAt(r, k', j);
      }
    }
  }

  // ----- the stored state --------------------------------------------------

  /** The parts of `state` the handlers change. */
  class AppState {
    var transactions: seq<Transaction>
    var cap: real
    var categoryBudgets: Entries
    var currency: CurrencyState

    /** What every handler keeps: each stored rate is positive (the rate
        input refuses others), budgets and the cap are not negative, and
        each budget category appears once. The constructor establishes it
        and each handler preserves it; no handler needs it to do its work,
        so none requires it. */
    ghost predicate Valid()
      reads this
    {
      && cap >= 0.0
      && Distinct(KeysOf(categoryBudgets))
      && (forall j :: 0 <= j < |categoryBudgets| ==> categoryBudgets[j].1 >= 0.0)
      && (forall code :: code in currency.rates ==> currency.rates[code] > 0.0)
    }

    /** The initial `state`: no records, cap 0, the four fallback rates with
        "USD" selected, and a zero budget for each of the ten categories. */
    constructor ()
      ensures Valid()
      ensures transactions == [] && cap == 0.0
      ensures currency == CurrencyState("USD", map["USD" := 1.0, "KES" := 129.5, "EUR" := 0.92, "GBP" := 0.78])
      ensures KeysOf(categoryBudgets) == ["Education", "Housing", "Food", "Transport", "Entertainment",
                                          "Utilities", "Health", "Shopping", "Travel", "Other"]
      ensures SumValues(categoryBudgets) == 0.0
    {
      transactions := [];
      cap := 0.0;
      currency := CurrencyState("USD", map["USD" := 1.0, "KES" := 129.5, "EUR" := 0.92, "GBP" := 0.78]);
      categoryBudgets := [("Education", 0.0), ("Housing", 0.0), ("Food", 0.0), ("Transport", 0.0),
                          ("Entertainment", 0.0), ("Utilities", 0.0), ("Health", 0.0), ("Shopping", 0.0),
                          ("Travel", 0.0), ("Other", 0.0)];
      new;
      SumByZero(categoryBudgets, EntryValue);
    }

    /** `ensureBudgetSync`: the cap follows the sum of the budgets unless it
        is already within one cent of it; the budgets are not touched. */
    method EnsureBudgetSync()
      modifies this
      ensures old(Valid()) ==> Valid()
      ensures var sum := SumValues(categoryBudgets);
        cap == (if old(cap) - sum > 0.01 || sum - old(cap) > 0.01 then sum else old(cap))
      ensures -0.01 <= cap - SumValues(categoryBudgets) <= 0.01
      ensures categoryBudgets == old(categoryBudgets) && transactions == old(transactions)
      ensures currency == old(currency)
    {
      var sum := SumValues(categoryBudgets);
      var diff := sum - cap;
      if (if diff < 0.0 then -diff else diff) > 0.01 {
        if Valid() {
          SumValuesNonNegative(categoryBudgets);
        }
        cap := sum;
      }
    }

    /** The delete button (after `confirm`): every record with the id goes.
        The handler acts only on a non-empty `data-del`, so an empty id
        deletes nothing, even when some record's id is empty. */
    method Delete(id: string)
      modifies this
      ensures old(Valid()) ==> Valid()
      ensures transactions == if id == "" then old(transactions) else Filter(old(transactions), IdIsNot(id))
      ensures cap == old(cap) && categoryBudgets == old(categoryBudgets) && currency == old(currency)
    {
      if id != "" {
        transactions := Filter(transactions, IdIsNot(id));
      }
    }

    /** The edit branch of the submit handler. */
    method Edit(id: string, f: Fields, now: string)
      modifies this
      ensures old(Valid()) ==> Valid()
      ensures transactions == EditTransactions(old(transactions), id, f, now)
      ensures cap == old(cap) && categoryBudgets == old(categoryBudgets) && currency == old(currency)
    {
      var idx := IndexOfId(transactions, id);
      if idx != -1 {
        transactions := transactions[idx := EditRecord(transactions[idx], f, now)];
      }
    }

    /** The add branch of the submit handler: one record appended. */
    method Add(id: string, f: Fields, now: string)
      modifies this
      ensures old(Valid()) ==> Valid()
      ensures transactions == old(transactions) + [NewRecord(id, f, now)]
      ensures cap == old(cap) && categoryBudgets == old(categoryBudgets) && currency == old(currency)
    {
      transactions := transactions + [NewRecord(id, f, now)];
    }

    /** The submit handler. `editId` is the form's pending edit ("" when
        none), `freshId` the new record's id, `amount` and `day` the
        conversions of the amount and date text. Nothing changes when a
        field fails its check. */
    method Submit(raw: Form, editId: string, freshId: string, amount: real, day: Date, now: string)
      returns (report: Report)
      requires AmountPattern(Trim(raw.amount)) ==> amount == NumberValue(Trim(raw.amount))
      requires DatePattern(raw.date) && IsValidYmd(ParsedDate(raw.date)) ==> day == ParsedDate(raw.date)
      modifies this
      ensures old(Valid()) ==> Valid()
      ensures report.hasErrors <==> !FormAccepted(TrimmedForm(raw))
      ensures var data := TrimmedForm(raw); var f := Fields(data.description, amount, data.category, day);
        transactions ==
          if report.hasErrors then old(transactions)
          else if editId != "" then EditTransactions(old(transactions), editId, f, now)
          else old(transactions) + [NewRecord(freshId, f, now)]
      ensures cap == old(cap) && categoryBudgets == old(categoryBudgets) && currency == old(currency)
    {
      var data := TrimmedForm(raw);
      report := ValidateAll(data);
      if report.hasErrors {
        return;
      }
      var f := Fields(data.description, amount, data.category, day);
      if editId != "" {
        Edit(editId, f, now);
      } else {
        Add(freshId, f, now);
      }
    }

    /** The cap input: an unreadable or non-positive value clears the cap,
        any other is read in the selected currency. */
    method SetCap(input: Option<real>)
      modifies this
      ensures old(Valid()) ==> Valid()
      ensures cap == if input.None? || input.value <= 0.0 then 0.0 else ToBase(input.value, old(currency))
      ensures transactions == old(transactions) && categoryBudgets == old(categoryBudgets)
      ensures currency == old(currency)
    {
      if input.None? || input.value <= 0.0 {
        cap := 0.0;
      } else {
        if Valid() {
          ConvertMonotone(0.0, input.value, currency);
        }
        cap := ToBase(input.value, currency);
      }
    }

    /** The budget input: a readable, non-negative value becomes the
        category's budget in the base currency and the cap is re-synced;
        anything else changes nothing. */
    method SetBudget(cat: string, input: Option<real>)
      modifies this
      ensures old(Valid()) ==> Valid()
      ensures input.None? || input.value < 0.0 ==>
        cap == old(cap) && categoryBudgets == old(categoryBudgets)
      ensures input.Some? && input.value >= 0.0 ==>
        && categoryBudgets == Put(old(categoryBudgets), cat, ToBase(input.value, old(currency)))
        && Lookup(categoryBudgets, cat) == ToBase(input.value, old(currency))
        && (forall k :: k != cat ==> Lookup(categoryBudgets, k) == Lookup(old(categoryBudgets), k))
        && -0.01 <= cap - SumValues(categoryBudgets) <= 0.01
      ensures input.Some? && input.value >= 0.0 ==>
        var sum := SumValues(categoryBudgets);
        cap == (if old(cap) - sum > 0.01 || sum - old(cap) > 0.01 then sum else old(cap))
      ensures transactions == old(transactions) && currency == old(currency)
    {
      if input.Some? && input.value >= 0.0 {
        var v := ToBase(input.value, currency);
        ghost var valid := Valid();
        if valid {
          ConvertMonotone(0.0, input.value, currency);
        }
        LookupPut(categoryBudgets, cat, v);
        var before := categoryBudgets;
        categoryBudgets := Put(categoryBudgets, cat, v);
        assert forall j :: 0 <= j < |categoryBudgets| ==>
          categoryBudgets[j].1 == v || (j < |before| && categoryBudgets[j].1 == before[j].1);
        assert valid ==> Valid();
        EnsureBudgetSync();
      }
    }

    /** The rate input: only a readable, positive value is stored. */
    method SetRate(code: string, input: Option<real>)
      modifies this
      ensures old(Valid()) ==> Valid()
      ensures currency.current == old(currency.current)
      ensures currency.rates ==
        if input.Some? && input.value > 0.0 then old(currency.rates)[code := input.value] else old(currency.rates)
      ensures transactions == old(transactions) && cap == old(cap) && categoryBudgets == old(categoryBudgets)
    {
      if input.Some? && input.value > 0.0 {
        currency := currency.(rates := currency.rates[code := input.value]);
      }
    }

    /** `onCurrencyChange`: another currency is selected; stored amounts
        stay in the base currency. */
    method SelectCurrency(code: string)
      modifies this
      ensures old(Valid()) ==> Valid()
      ensures currency == old(currency).(current := code)
      ensures transactions == old(transactions) && cap == old(cap) && categoryBudgets == old(categoryBudgets)
    {
      currency := currency.(current := code);
    }

    /** The clear-data button (after `confirm`): no records and no cap; the
        budgets remain. */
    method ClearData()
      modifies this
      ensures old(Valid()) ==> Valid()
      ensures transactions == [] && cap == 0.0
      ensures categoryBudgets == old(categoryBudgets) && currency == old(currency)
    {
      transactions := [];
      cap := 0.0;
    }

    /** The stored record carries the element's own id, description, amount
        and category (the element is stored as parsed). */
    static predicate DecodesFields(decode: Json -> Transaction, item: Json)
      requires ItemOk(item)
    {
      var t := decode(item);
      && t.id == Get(item, "id").value.s
      && t.description == Get(item, "description").value.s
      && t.amount == Get(item, "amount").value.x
      && t.category == Get(item, "category").value.s
    }

    /** The import handler after `JSON.parse`: an accepted array replaces
        every record (`decode` reads one element as a record); a rejected
        one, or one whose check throws, changes nothing. */
    method Import(parsed: Json, decode: Json -> Transaction) returns (ok: bool)
      requires forall item :: ItemOk(item) ==> DecodesFields(decode, item)
      modifies this
      ensures old(Valid()) ==> Valid()
      ensures ok <==> ValidateImport(parsed) == Returns(true)
      ensures ok ==> && parsed.JArray? && |parsed.items| > 0
                     && (forall i :: 0 <= i < |parsed.items| ==> ItemOk(parsed.items[i]))
                     && transactions == seq(|parsed.items|, i requires 0 <= i < |parsed.items| => decode(parsed.items[i]))
                     && (forall i :: 0 <= i < |parsed.items| ==> DecodesFields(decode, parsed.items[i]))
      ensures !ok ==> transactions == old(transactions)
      ensures cap == old(cap) && categoryBudgets == old(categoryBudgets) && currency == old(currency)
    {
      ValidateImportSpec(parsed);
      ok := ValidateImport(parsed) == Returns(true);
      if ok {
        transactions := seq(|parsed.items|, i requires 0 <= i < |parsed.items| => decode(parsed.items[i]));
      }
    }
  }
}

/**
 * The compressor step: the compressor chosen for a model, and the name of the artifact
 * it writes, `<DumpPath>/<YYYY.MM.DD.HH.MM.SS><ext>`, taken from the wall clock.
 * That name (its base) is the key the storages and the retention cycler work with, so
 * what matters here is that the timestamp layout is fixed-width and most significant
 * field first: distinct clock readings give distinct names, and names sort as the
 * readings do.
 */
module Compressor {
  import opened Wrappers
  import Text
  import Paths

  /** A reading of the local wall clock at one-second resolution. */
  datatype Clock = Clock(year: int, month: int, day: int, hour: int, minute: int, second: int)

  /** The ranges Go's `time.Time` keeps its calendar fields in. */
  predicate ValidClock(c: Clock)
  {
    1 <= c.month <= 12 && 1 <= c.day <= 31 && 0 <= c.hour <= 23
    && 0 <= c.minute <= 59 && 0 <= c.second <= 59
  }

  /** Years that the layout prints with exactly four digits. */
  predicate FourDigitYear(c: Clock)
  {
    0 <= c.year <= 9999
  }

  /** The calendar fields, most significant first. */
  function FieldsOf(c: Clock): seq<int>
  {
    [c.year, c.month, c.day, c.hour, c.minute, c.second]
  }

  /** Lexicographic order on equally long sequences of numbers. */
  predicate LexLess(a: seq<int>, b: seq<int>)
    requires |a| == |b|
  {
    |a| > 0 && (a[0] < b[0] || (a[0] == b[0] && LexLess(a[1..], b[1..])))
  }

  lemma {:induction false} LexTotal(a: seq<int>, b: seq<int>)
    requires |a| == |b|
    ensures a == b || LexLess(a, b) || LexLess(b, a)
  {
    if |a| > 0 && a[0] == b[0] {
      LexTotal(a[1..], b[1..]);
      if a[1..] == b[1..] {
        assert a == [a[0]] + a[1..] && b == [b[0]] + b[1..];
      }
    }
  }

  /** Clock `c1` reads an earlier time than `c2`. */
  predicate Before(c1: Clock, c2: Clock)
  {
    LexLess(FieldsOf(c1), FieldsOf(c2))
  }

  /** Go's layout element "2006": the year with at least four digits, signed when negative. */
  function YearField(y: int): string
  {
    if y < 0 then "-" + Text.Pad(-y, 4) else Text.Pad(y, 4)
  }

  /** Numbers written with fixed widths, joined by dots. */
  function Groups(vals: seq<int>, widths: seq<nat>): (s: string)
    requires |vals| == |widths| >= 1
    requires forall i :: 0 <= i < |vals| ==> vals[i] >= 0
    ensures '/' !in s
  {
    var head := Text.Fixed(vals[0], widths[0]);
    if |vals| == 1 then head else head + ("." + Groups(vals[1..], widths[1..]))
  }

  /** The widths of the layout's fields: "2006", "01", "02", "15", "04", "05". */
  const Widths: seq<nat> := [4, 2, 2, 2, 2, 2]

  /**
   * Go's `t.Format("2006.01.02.15.04.05")`. For a four-digit year the result is the six
   * fields, each zero-padded to its fixed width, joined by dots: 19 characters.
   */
  function Timestamp(c: Clock): (s: string)
    requires ValidClock(c)
    ensures s != [] && '/' !in s
    ensures FourDigitYear(c) ==> s == Groups(FieldsOf(c), Widths) && |s| == 19
  {
    LayoutFacts(c);
    YearField(c.year) + ("." + Groups(FieldsOf(c)[1..], Widths[1..]))
  }

  /** The length of dotted fixed-width groups: the widths plus one dot between neighbours. */
  function TotalWidth(widths: seq<nat>): nat
    requires |widths| >= 1
  {
    if |widths| == 1 then widths[0] else widths[0] + 1 + TotalWidth(widths[1..])
  }

  lemma {:induction false} GroupsLength(vals: seq<int>, widths: seq<nat>)
    requires |vals| == |widths| >= 1
    requires forall i :: 0 <= i < |vals| ==> vals[i] >= 0
    ensures |Groups(vals, widths)| == TotalWidth(widths)
  {
    if |vals| > 1 {
      GroupsLength(vals[1..], widths[1..]);
    }
  }

  /** The pieces `Timestamp` is made of: no slash, and fixed widths for a four-digit year. */
  lemma LayoutFacts(c: Clock)
    requires ValidClock(c)
    ensures '/' !in YearField(c.year)
    ensures FourDigitYear(c) ==>
              YearField(c.year) == Text.Fixed(c.year, 4)
              && |Groups(FieldsOf(c)[1..], Widths[1..])| == 14
  {
    var digits := Text.Pad(if c.year < 0 then -c.year else c.year, 4);
    assert Text.AllDigits(digits);
    GroupsLength(FieldsOf(c)[1..], Widths[1..]);
    assert TotalWidth([2]) == 2;
    assert TotalWidth([2, 2]) == 5;
    assert TotalWidth([2, 2, 2]) == 8;
    assert TotalWidth([2, 2, 2, 2]) == 11;
    assert TotalWidth(Widths[1..]) == 14;
    if FourDigitYear(c) {
      Text.NumDigitsBound(c.year, 4);
    }
  }

  /** Go's `archiveFilePath`: the dump path joined with the timestamp and the extension. */
  function ArchiveFilePath(dumpPath: string, now: Clock, ext: string): (path: string)
    requires ValidClock(now)
    ensures var name := Timestamp(now) + ext; |name| <= |path| && path[|path| - |name|..] == name
    ensures dumpPath == [] ==> path == Timestamp(now) + ext
  {
    Paths.Join(dumpPath, Timestamp(now) + ext)
  }

  /** The artifact's file key, its base name, is the timestamp followed by the extension. */
  lemma ArtifactKey(dumpPath: string, now: Clock, ext: string)
    requires ValidClock(now)
    requires '/' !in ext
    ensures Paths.Base(ArchiveFilePath(dumpPath, now, ext)) == Timestamp(now) + ext
  {
    var name := Timestamp(now) + ext;
    assert '/' !in name;
    Paths.BaseOfJoin(dumpPath, name);
  }

  /** Dotted fixed-width groups, followed by a common suffix, compare as their numbers do. */
  lemma {:induction false} GroupsOrder(a: seq<int>, b: seq<int>, widths: seq<nat>, ext: string)
    requires |a| == |b| == |widths| >= 1
    requires forall i :: 0 <= i < |a| ==> 0 <= a[i] < Text.Pow10(widths[i])
    requires forall i :: 0 <= i < |b| ==> 0 <= b[i] < Text.Pow10(widths[i])
    ensures Text.Less(Groups(a, widths) + ext, Groups(b, widths) + ext) <==> LexLess(a, b)
  {
    var fa, fb := Text.Fixed(a[0], widths[0]), Text.Fixed(b[0], widths[0]);
    Text.FixedOrder(a[0], b[0], widths[0]);
    if fa == fb {
      Text.FixedInjective(a[0], b[0], widths[0]);
    }
    if |a| == 1 {
      Text.LessBlocks(fa, ext, fb, ext);
      Text.LessIrreflexive(ext);
    } else {
      var ra, rb := Groups(a[1..], widths[1..]), Groups(b[1..], widths[1..]);
      assert Groups(a, widths) + ext == fa + ("." + (ra + ext));
      assert Groups(b, widths) + ext == fb + ("." + (rb + ext));
      Text.LessBlocks(fa, "." + (ra + ext), fb, "." + (rb + ext));
      Text.LessCommonPrefix(".", ra + ext, rb + ext);
      GroupsOrder(a[1..], b[1..], widths[1..], ext);
    }
  }

  /**
   * For four-digit years, one artifact name sorts before another exactly when its clock
   * reading is earlier: lexicographic order is chronological order.
   */
  lemma NameOrderIsTimeOrder(c1: Clock, c2: Clock, ext: string)
    requires ValidClock(c1) && ValidClock(c2)
    requires FourDigitYear(c1) && FourDigitYear(c2)
    ensures Text.Less(Timestamp(c1) + ext, Timestamp(c2) + ext) <==> Before(c1, c2)
  {
    GroupsOrder(FieldsOf(c1), FieldsOf(c2), Widths, ext);
  }

  /** Different clock readings (four-digit years) never produce the same artifact name. */
  lemma NamesInjective(c1: Clock, c2: Clock, ext: string)
    requires ValidClock(c1) && ValidClock(c2)
    requires FourDigitYear(c1) && FourDigitYear(c2)
    requires Timestamp(c1) + ext == Timestamp(c2) + ext
    ensures c1 == c2
  {
    NameOrderIsTimeOrder(c1, c2, ext);
    NameOrderIsTimeOrder(c2, c1, ext);
    Text.LessIrreflexive(Timestamp(c1) + ext);
    LexTotal(FieldsOf(c1), FieldsOf(c2));
  }

  /** Two artifacts written to the same dump path sort by their clock readings. */
  lemma ArchivePathOrder(dumpPath: string, c1: Clock, c2: Clock, ext: string)
    requires ValidClock(c1) && ValidClock(c2)
    requires FourDigitYear(c1) && FourDigitYear(c2)
    ensures Text.Less(ArchiveFilePath(dumpPath, c1, ext), ArchiveFilePath(dumpPath, c2, ext))
            <==> Before(c1, c2)
  {
    var n1, n2 := Timestamp(c1) + ext, Timestamp(c2) + ext;
    NameOrderIsTimeOrder(c1, c2, ext);
    if dumpPath != [] {
      var p := Paths.TrimTrailingSlashes(dumpPath) + "/";
      assert Timestamp(c1) != [] && Timestamp(c2) != [];
      assert ArchiveFilePath(dumpPath, c1, ext) == p + n1;
      assert ArchiveFilePath(dumpPath, c2, ext) == p + n2;
      Text.LessCommonPrefix(p, n1, n2);
    }
  }

  /** The compressors the agent has; the archive format is tar + gzip. */
  datatype Compressor = Tgz

  /** The switch on `CompressWith.Type`: "tgz" and every other type select `Tgz`. */
  function Select(kind: string): Compressor
  {
    match kind
    case "tgz" => Tgz
    case _ => Tgz
  }

  /**
   * Go's `compressor.Run`: selects the compressor for the model's compression type and
   * returns the artifact path and error of its `perform` unchanged. `perform` stands for
   * the selected compressor's own work, which is not part of this model.
   */
  function Run(kind: string, perform: Compressor -> (string, Option<string>)): (r: (string, Option<string>))
    ensures r == perform(Tgz)
  {
    perform(Select(kind))
  }
}

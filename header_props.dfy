/** Properties of the record header and its fields, stated over the formatter's specification. */
module HeaderProps {
  import opened Text
  import opened Decimal
  import opened Logs

  /** With no prefix and no flag bit set the formatter appends nothing. */
  lemma HeaderEmpty(l: Logger, t: Time, file: string, line: int, lvl: int)
    requires ValidTime(t) && l.prefix == [] && l.flag == 0
    ensures Header(l, t, file, line, lvl) == []
  {
  }

  /** The prefix comes first, unchanged, whatever the flags. */
  lemma HeaderStartsWithPrefix(l: Logger, t: Time, file: string, line: int, lvl: int)
    requires ValidTime(t)
    requires Has(l.flag, Llevel) ==> 0 <= lvl < |LevelNames|
    ensures |l.prefix| <= |Header(l, t, file, line, lvl)|
    ensures Header(l, t, file, line, lvl)[..|l.prefix|] == l.prefix
  {
    var rest := DatePart(l.flag, t) + ClockPart(l.flag, t) + LevelPart(l.flag, lvl) +
      ModulePart(l.flag, file) + FilePart(l.flag, file, line);
    ConcatAssoc(l.prefix, DatePart(l.flag, t), ClockPart(l.flag, t));
    assert Header(l, t, file, line, lvl) == l.prefix + rest by {
      ConcatAssoc(l.prefix, DatePart(l.flag, t) + ClockPart(l.flag, t), LevelPart(l.flag, lvl));
      ConcatAssoc(l.prefix, DatePart(l.flag, t) + ClockPart(l.flag, t) + LevelPart(l.flag, lvl), ModulePart(l.flag, file));
      ConcatAssoc(l.prefix, DatePart(l.flag, t) + ClockPart(l.flag, t) + LevelPart(l.flag, lvl) + ModulePart(l.flag, file), FilePart(l.flag, file, line));
    }
  }

  /**
   * Ldate adds `YYYY/MM/DD `: eleven bytes, slashes at 4 and 7, a space at
   * 10, and digit groups that read back as the year, month and day.
   */
  lemma DatePartShape(flag: Flags, t: Time)
    requires ValidTime(t) && FourDigitYear(t)
    ensures !Has(flag, Ldate) ==> DatePart(flag, t) == []
    ensures Has(flag, Ldate) ==>
      var d := DatePart(flag, t);
      |d| == 11 && d[4] == '/' && d[7] == '/' && d[10] == ' ' &&
      AllDigits(d[..4]) && ValueOf(d[..4]) == t.year &&
      AllDigits(d[5..7]) && ValueOf(d[5..7]) == t.month &&
      AllDigits(d[8..10]) && ValueOf(d[8..10]) == t.day
  {
    if Has(flag, Ldate) {
      DateTextShape(t);
    }
  }

  /** The date text of a four-digit year: three digit groups separated by slashes. */
  lemma DateTextShape(t: Time)
    requires ValidTime(t) && FourDigitYear(t)
    ensures var d := DateText(t);
      |d| == 11 && d[4] == '/' && d[7] == '/' && d[10] == ' ' &&
      AllDigits(d[..4]) && ValueOf(d[..4]) == t.year &&
      AllDigits(d[5..7]) && ValueOf(d[5..7]) == t.month &&
      AllDigits(d[8..10]) && ValueOf(d[8..10]) == t.day
  {
    assert Pow10(2) == 100;
    assert Pow10(4) == 10000;
    var y, m, dd := Padded(t.year, 4), Padded(t.month, 2), Padded(t.day, 2);
    PaddedFixed(t.year, 4);
    PaddedFixed(t.month, 2);
    PaddedFixed(t.day, 2);
    var p2 := y + "/";
    var p3 := p2 + m;
    var p4 := p3 + "/";
    var p5 := p4 + dd;
    var d := p5 + " ";
    assert d == DateText(t);
    SliceLeft(p5, " ", 0, 4);
    SliceLeft(p4, dd, 0, 4);
    SliceLeft(p3, "/", 0, 4);
    SliceLeft(p2, m, 0, 4);
    SliceLeft(y, "/", 0, 4);
    assert d[..4] == y;
    SliceLeft(p5, " ", 5, 7);
    SliceLeft(p4, dd, 5, 7);
    SliceLeft(p3, "/", 5, 7);
    SliceRight(p2, m, 5, 7);
    assert d[5..7] == m;
    SliceLeft(p5, " ", 8, 10);
    SliceRight(p4, dd, 8, 10);
    assert d[8..10] == dd;
  }

  /**
   * Ltime or Lmicroseconds adds `HH:MM:SS`, then `.uuuuuu` (microseconds,
   * six digits) only with Lmicroseconds, then one space.
   */
  lemma ClockPartShape(flag: Flags, t: Time)
    requires ValidTime(t)
    ensures !Has(flag, Ltime | Lmicroseconds) ==> ClockPart(flag, t) == []
    ensures Has(flag, Ltime | Lmicroseconds) ==>
      var c := ClockPart(flag, t);
      |c| == (if Has(flag, Lmicroseconds) then 16 else 9) &&
      c[2] == ':' && c[5] == ':' && c[|c| - 1] == ' ' &&
      AllDigits(c[..2]) && ValueOf(c[..2]) == t.hour &&
      AllDigits(c[3..5]) && ValueOf(c[3..5]) == t.minute &&
      AllDigits(c[6..8]) && ValueOf(c[6..8]) == t.second &&
      (Has(flag, Lmicroseconds) ==>
        c[8] == '.' && AllDigits(c[9..15]) && ValueOf(c[9..15]) == t.nanosecond / 1000)
  {
    if Has(flag, Ltime | Lmicroseconds) {
      ClockTextShape(t, Has(flag, Lmicroseconds));
    }
  }

  /** The clock text: three two-digit fields, optionally six more digits. */
  lemma ClockTextShape(t: Time, micro: bool)
    requires ValidTime(t)
    ensures var c := ClockText(t, micro);
      |c| == (if micro then 16 else 9) &&
      c[2] == ':' && c[5] == ':' && c[|c| - 1] == ' ' &&
      AllDigits(c[..2]) && ValueOf(c[..2]) == t.hour &&
      AllDigits(c[3..5]) && ValueOf(c[3..5]) == t.minute &&
      AllDigits(c[6..8]) && ValueOf(c[6..8]) == t.second &&
      (micro ==> c[8] == '.' && AllDigits(c[9..15]) && ValueOf(c[9..15]) == t.nanosecond / 1000)
  {
    assert Pow10(2) == 100;
    assert Pow10(6) == 1000_000;
    var h, m, s, u := Padded(t.hour, 2), Padded(t.minute, 2), Padded(t.second, 2),
      Padded(t.nanosecond / 1000, 6);
    PaddedFixed(t.hour, 2);
    PaddedFixed(t.minute, 2);
    PaddedFixed(t.second, 2);
    PaddedFixed(t.nanosecond / 1000, 6);
    var tail: string := if micro then "." + u else [];
    assert ClockText(t, micro) == h + ":" + m + ":" + s + tail + " ";
    ClockLayout(h, m, s, tail);
    if micro {
      assert tail[1..] == u;
    }
  }

  /** Where the fields of the clock text sit, whatever their digits. */
  lemma ClockLayout(h: string, m: string, s: string, tail: string)
    requires |h| == 2 && |m| == 2 && |s| == 2
    ensures var c := h + ":" + m + ":" + s + tail + " ";
      |c| == 9 + |tail| && c[2] == ':' && c[5] == ':' && c[|c| - 1] == ' ' &&
      c[..2] == h && c[3..5] == m && c[6..8] == s &&
      (1 <= |tail| ==> c[8] == tail[0] && c[9..|c| - 1] == tail[1..])
  {
    var p2 := h + ":";
    var p3 := p2 + m;
    var p4 := p3 + ":";
    var p5 := p4 + s;
    var p6 := p5 + tail;
    var c := p6 + " ";
    // Each field is found by peeling the concatenations off from the right.
    SliceLeft(p6, " ", 0, 2);
    SliceLeft(p5, tail, 0, 2);
    SliceLeft(p4, s, 0, 2);
    SliceLeft(p3, ":", 0, 2);
    SliceLeft(p2, m, 0, 2);
    SliceLeft(h, ":", 0, 2);
    assert c[..2] == h;
    SliceLeft(p6, " ", 3, 5);
    SliceLeft(p5, tail, 3, 5);
    SliceLeft(p4, s, 3, 5);
    SliceLeft(p3, ":", 3, 5);
    SliceRight(p2, m, 3, 5);
    SliceLeft(p6, " ", 6, 8);
    SliceLeft(p5, tail, 6, 8);
    SliceRight(p4, s, 6, 8);
    if 1 <= |tail| {
      SliceLeft(p6, " ", 9, |c| - 1);
      SliceRight(p5, tail, 9, |c| - 1);
    }
  }

  /** Llevel adds the seven-byte label of the level and no space after it. */
  lemma LevelPartShape(flag: Flags, lvl: int)
    requires Has(flag, Llevel) ==> 0 <= lvl < |LevelNames|
    ensures !Has(flag, Llevel) ==> LevelPart(flag, lvl) == []
    ensures Has(flag, Llevel) ==> LevelPart(flag, lvl) == LevelNames[lvl] && |LevelPart(flag, lvl)| == 7
  {
    if Has(flag, Llevel) {
      var _ := LevelName(lvl);
    }
  }

  /**
   * The file flags add the file name, `:line` only when the line is
   * positive (in plain decimal, reading back as the line), and `: `.
   */
  lemma FilePartShape(flag: Flags, file: string, line: int)
    ensures !Has(flag, Lshortfile | Llongfile) ==> FilePart(flag, file, line) == []
    ensures Has(flag, Lshortfile | Llongfile) && line <= 0 ==>
      FilePart(flag, file, line) == FileName(flag, file) + ": "
    ensures Has(flag, Lshortfile | Llongfile) && line > 0 ==>
      FilePart(flag, file, line) == FileName(flag, file) + ":" + Canonical(line) + ": " &&
      AllDigits(Canonical(line)) && ValueOf(Canonical(line)) == line && Canonical(line)[0] != '0'
  {
    if line > 0 {
      PaddedUnpadded(line, -1);
      CanonicalShape(line);
    }
  }

  /** With Llongfile alone the path is written unchanged. */
  lemma LongFileUnchanged(flag: Flags, file: string)
    requires Has(flag, Llongfile) && !Has(flag, Lshortfile)
    ensures FileName(flag, file) == file
  {
  }

  /** Lshortfile keeps what follows the last "/" at index 1 or later. */
  lemma ShortFileExample()
    ensures ShortFile("/a/b/c.go") == "c.go"
    ensures ShortFile("/c.go") == "/c.go"
    ensures ShortFile("c.go") == "c.go"
  {
    ShortFileTrims("/a/b/c.go", 4);
    ShortFileUntrimmed("/c.go");
    ShortFileUntrimmed("c.go");
  }

  /** The module of a path under a source tree is what lies between "/src/" and the file name. */
  lemma ModuleOfExample()
    ensures ModuleOf("/home/u/src/pkgname/file.go") == "pkgname"
  {
    var f := "/home/u/src/pkgname/file.go";
    forall j | 19 < j ensures !OccursAt(f, "/", j) {
      OccursAtByte(f, '/', j);
    }
    OccursAtByte(f, '/', 19);
    var p := "/home/u/src/pkgname";
    assert f[..19] == p;
    forall j | 7 < j ensures !OccursAt(p, SrcMarker, j) {
      if j + 1 < |p| && p[j] == '/' {
        MismatchAt(p, SrcMarker, j, 1);
      } else {
        MismatchAt(p, SrcMarker, j, 0);
      }
    }
    MatchAt(p, SrcMarker, 7);
    ModuleOfFound(f, 19, 7);
  }

  /** A module nested several directories below "/src/" keeps its inner "/". */
  lemma ModuleOfNestedExample()
    ensures ModuleOf("/x/src/a/b/f.go") == "a/b"
  {
    var f := "/x/src/a/b/f.go";
    forall j | 10 < j ensures !OccursAt(f, "/", j) {
      OccursAtByte(f, '/', j);
    }
    OccursAtByte(f, '/', 10);
    var p := "/x/src/a/b";
    assert f[..10] == p;
    forall j | 2 < j ensures !OccursAt(p, SrcMarker, j) {
      if j + 1 < |p| && p[j] == '/' {
        MismatchAt(p, SrcMarker, j, 1);
      } else {
        MismatchAt(p, SrcMarker, j, 0);
      }
    }
    MatchAt(p, SrcMarker, 2);
    ModuleOfFound(f, 10, 2);
  }

  /** A path with no "/src/" before its last "/" has module "UNKNOWN". */
  lemma ModuleOfUnknownExample()
    ensures ModuleOf("/a/b/c.go") == UnknownModule
  {
    var g := "/a/b/c.go";
    forall j | 4 < j ensures !OccursAt(g, "/", j) {
      OccursAtByte(g, '/', j);
    }
    OccursAtByte(g, '/', 4);
    assert g[..4] == "/a/b";
    ModuleOfNoSrc(g, 4);
  }

  /** So does a bare file name. */
  lemma ModuleOfBareExample()
    ensures ModuleOf("file.go") == UnknownModule
  {
    forall j ensures !OccursAt("file.go", "/", j) {
      OccursAtByte("file.go", '/', j);
    }
    ModuleOfNoSlash("file.go");
  }

  lemma DefaultExampleDate(t: Time)
    requires t == Time(2024, 3, 5, 8, 9, 10, 0)
    ensures DatePart(Ldefault, t) == "2024/03/05 "
  {
    assert Padded(2024, 4) == "2024";
    assert Padded(3, 2) == "03";
    assert Padded(5, 2) == "05";
  }

  lemma DefaultExampleClock(t: Time)
    requires t == Time(2024, 3, 5, 8, 9, 10, 0)
    ensures ClockPart(Ldefault, t) == "08:09:10 "
  {
    assert Padded(8, 2) == "08";
    assert Padded(9, 2) == "09";
    assert Padded(10, 2) == "10";
  }

  lemma DefaultExampleFile()
    ensures FilePart(Ldefault, "/a/b/c.go", 42) == "c.go:42: "
  {
    assert Padded(42, -1) == "42";
    ShortFileExample();
  }

  /** The four non-empty blocks of the Ldefault example, in order. */
  lemma HeaderDefaultBlocks(l: Logger, t: Time, f: string)
    requires l.prefix == [] && l.flag == Ldefault
    requires t == Time(2024, 3, 5, 8, 9, 10, 0) && f == "/a/b/c.go"
    ensures Header(l, t, f, 42, INFO) ==
      [] + "2024/03/05 " + "08:09:10 " + "[INFO ]" + [] + "c.go:42: "
  {
    DefaultExampleDate(t);
    DefaultExampleClock(t);
    DefaultExampleFile();
    assert LevelPart(l.flag, INFO) == "[INFO ]";
    assert ModulePart(l.flag, f) == [];
  }

  lemma DefaultExampleJoin()
    ensures [] + "2024/03/05 " + "08:09:10 " + "[INFO ]" + [] + "c.go:42: " ==
      "2024/03/05 08:09:10 [INFO ]c.go:42: "
  {
  }

  /** Ldefault at 2024-03-05 08:09:10, level INFO, /a/b/c.go line 42. */
  lemma HeaderDefaultExample(l: Logger)
    requires l.prefix == [] && l.flag == Ldefault
    ensures Header(l, Time(2024, 3, 5, 8, 9, 10, 0), "/a/b/c.go", 42, INFO) ==
      "2024/03/05 08:09:10 [INFO ]c.go:42: "
  {
    HeaderDefaultBlocks(l, Time(2024, 3, 5, 8, 9, 10, 0), "/a/b/c.go");
    DefaultExampleJoin();
  }
}

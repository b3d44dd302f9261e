/**
 * The record-header formatter of the logger: flag bits, level labels,
 * module extraction, short-file trimming, the header itself and the
 * on-disk file name.
 */
module Logs {
  import opened Text
  import opened Decimal
  import opened Buffers

  /** The header flag bitmask (a Go `int` used as a bit set). */
  type Flags = bv64

  const Ldate: Flags := 1
  const Ltime: Flags := 2
  const Lmicroseconds: Flags := 4
  const Llongfile: Flags := 8
  const Lshortfile: Flags := 16
  const Lmodule: Flags := 32
  const Llevel: Flags := 64
  const LstdFlags: Flags := Ldate | Ltime
  const Ldefault: Flags := Llevel | Lshortfile | LstdFlags

  const DEBUG: int := 0
  const INFO: int := 1
  const WARN: int := 2
  const ERROR: int := 3
  const PANIC: int := 4
  const FATAL: int := 5

  const LogSuffix: string := ".log"
  const SrcMarker: string := "/src/"
  const UnknownModule: string := "UNKNOWN"

  const LevelNames: seq<string> := ["[DEBUG]", "[INFO ]", "[WARN ]", "[ERROR]", "[PANIC]", "[FATAL]"]

  /** `l.flag&mask != 0`. */
  predicate Has(flag: Flags, mask: Flags) {
    flag & mask != 0
  }

  /** Every level label is seven bytes wide and bracketed. */
  function LevelName(lvl: int): (r: string)
    requires 0 <= lvl < |LevelNames|
    ensures |r| == 7 && r[0] == '[' && r[6] == ']'
  {
    LevelNames[lvl]
  }

  /** The broken-down timestamp, as `t.Date()`, `t.Clock()` and `t.Nanosecond()` return it. */
  datatype Time = Time(year: int, month: nat, day: nat, hour: nat, minute: nat, second: nat, nanosecond: nat)

  predicate ValidTime(t: Time) {
    -IntLimit <= t.year < IntLimit && 1 <= t.month <= 12 && 1 <= t.day <= 31 &&
    t.hour < 24 && t.minute < 60 && t.second < 60 && t.nanosecond < 1_000_000_000
  }

  /** The years the layout "2006" writes as exactly four digits. */
  predicate FourDigitYear(t: Time) {
    0 <= t.year <= 9999
  }

  /** `YYYY-MM-DD`, the layout "2006-01-02" applied to `t`. */
  function DateStamp(t: Time): string
    requires ValidTime(t) && FourDigitYear(t)
  {
    Padded(t.year, 4) + "-" + Padded(t.month, 2) + "-" + Padded(t.day, 2)
  }

  /** The Logger fields the formatter and the file naming read. */
  datatype Logger = Logger(prefix: string, flag: Flags, logPath: string, logFile: string, create: Time)
  {
    /** logfileName: `<logFile>.<YYYY-MM-DD>.log`, dated by the creation time. */
    function LogfileName(): (r: string)
      requires ValidTime(create) && FourDigitYear(create)
      ensures |r| == |logFile| + 15
      ensures r[..|logFile|] == logFile && r[|logFile|] == '.'
      ensures r[|logFile| + 1..|logFile| + 11] == DateStamp(create)
      ensures r[|logFile| + 11..] == LogSuffix
    {
      DateStampShape(create);
      logFile + "." + DateStamp(create) + LogSuffix
    }

    /** logfileFullName: the file name inside the log directory. */
    function LogfileFullName(): (r: string)
      requires ValidTime(create) && FourDigitYear(create)
      ensures |r| == |logPath| + |logFile| + 16
      ensures r[..|logPath|] == logPath && r[|logPath|] == '/'
      ensures r[|logPath| + 1..] == LogfileName()
    {
      logPath + "/" + LogfileName()
    }
  }

  /** The date stamp is ten bytes whose digit groups read back as year, month and day. */
  lemma DateStampShape(t: Time)
    requires ValidTime(t) && FourDigitYear(t)
    ensures var s := DateStamp(t);
      |s| == 10 && s[4] == '-' && s[7] == '-' &&
      AllDigits(s[..4]) && ValueOf(s[..4]) == t.year &&
      AllDigits(s[5..7]) && ValueOf(s[5..7]) == t.month &&
      AllDigits(s[8..]) && ValueOf(s[8..]) == t.day
  {
    assert Pow10(2) == 100;
    assert Pow10(4) == 10000;
    PaddedFixed(t.year, 4);
    PaddedFixed(t.month, 2);
    PaddedFixed(t.day, 2);
    var s := DateStamp(t);
    assert s[..4] == Padded(t.year, 4);
    assert s[5..7] == Padded(t.month, 2);
    assert s[8..] == Padded(t.day, 2);
  }

  /** Two loggers with the same base name get the same file name exactly when created on the same day. */
  lemma LogfileNameSameDay(l1: Logger, l2: Logger)
    requires ValidTime(l1.create) && FourDigitYear(l1.create)
    requires ValidTime(l2.create) && FourDigitYear(l2.create)
    requires l1.logFile == l2.logFile
    ensures l1.LogfileName() == l2.LogfileName() <==>
      (l1.create.year, l1.create.month, l1.create.day) == (l2.create.year, l2.create.month, l2.create.day)
  {
    var n1, n2 := l1.LogfileName(), l2.LogfileName();
    var f := |l1.logFile|;
    DateStampShape(l1.create);
    DateStampShape(l2.create);
    if n1 == n2 {
      assert n1[f + 1..f + 11] == n2[f + 1..f + 11];
      var d1, d2 := DateStamp(l1.create), DateStamp(l2.create);
      assert d1[..4] == d2[..4] && d1[5..7] == d2[5..7] && d1[8..] == d2[8..];
    }
  }

  /** The same holds for the full path, for loggers sharing the directory and the base name. */
  lemma LogfileFullNameSameDay(l1: Logger, l2: Logger)
    requires ValidTime(l1.create) && FourDigitYear(l1.create)
    requires ValidTime(l2.create) && FourDigitYear(l2.create)
    requires l1.logPath == l2.logPath && l1.logFile == l2.logFile
    ensures l1.LogfileFullName() == l2.LogfileFullName() <==>
      (l1.create.year, l1.create.month, l1.create.day) == (l2.create.year, l2.create.month, l2.create.day)
  {
    LogfileNameSameDay(l1, l2);
    var p := |l1.logPath|;
    if l1.LogfileFullName() == l2.LogfileFullName() {
      assert l1.LogfileFullName()[p + 1..] == l2.LogfileFullName()[p + 1..];
    }
  }

  /**
   * moduleOf: the text between the last "/src/" before the last "/" and that
   * "/", or "UNKNOWN".  A module found is shorter than the path by at least
   * the marker and the final "/".
   */
  function ModuleOf(file: string): (r: string)
    ensures r == UnknownModule || |r| + |SrcMarker| + 1 <= |file|
  {
    var pos := LastIndex(file, "/");
    if pos != -1 then
      var pos1 := LastIndex(file[..pos], SrcMarker);
      if pos1 != -1 then file[pos1 + |SrcMarker|..pos] else UnknownModule
    else
      UnknownModule
  }

  /** A path without any "/" has no module. */
  lemma ModuleOfNoSlash(file: string)
    requires Absent(file, "/")
    ensures ModuleOf(file) == UnknownModule
  {
    LastIndexSpec(file, "/");
  }

  /** A path with no "/src/" before its last "/" has no module. */
  lemma ModuleOfNoSrc(file: string, pos: int)
    requires IsLastOccurrence(file, "/", pos)
    requires Absent(file[..pos], SrcMarker)
    ensures ModuleOf(file) == UnknownModule
  {
    LastIndexIs(file, "/", pos);
    LastIndexSpec(file[..pos], SrcMarker);
  }

  /**
   * Otherwise the module is the slice between the last "/src/" before the
   * last "/" and that "/"; the slice is in bounds and never itself holds "/src/".
   */
  lemma ModuleOfFound(file: string, pos: int, pos1: int)
    requires IsLastOccurrence(file, "/", pos)
    requires IsLastOccurrence(file[..pos], SrcMarker, pos1)
    ensures pos1 + |SrcMarker| <= pos < |file|
    ensures ModuleOf(file) == file[pos1 + |SrcMarker|..pos]
    ensures Absent(ModuleOf(file), SrcMarker)
  {
    LastIndexIs(file, "/", pos);
    LastIndexIs(file[..pos], SrcMarker, pos1);
    var m := file[pos1 + |SrcMarker|..pos];
    forall k | OccursAt(m, SrcMarker, k) ensures false {
      var at := pos1 + |SrcMarker| + k;
      assert file[..pos][at..at + |SrcMarker|] == m[k..k + |SrcMarker|];
      assert OccursAt(file[..pos], SrcMarker, at);
    }
  }

  /** The short file name: the text after the last "/" found at index 1 or later. */
  function ShortFile(file: string): (r: string)
    ensures |r| <= |file| && file[|file| - |r|..] == r
  {
    var k := LastIndex(file, "/");
    if k >= 1 then file[k + 1..] else file
  }

  /** A "/" at index k >= 1 with none after it cuts the path there. */
  lemma ShortFileTrims(file: string, k: int)
    requires 1 <= k < |file| && file[k] == '/'
    requires forall j :: k < j < |file| ==> file[j] != '/'
    ensures ShortFile(file) == file[k + 1..]
  {
    OccursAtByte(file, '/', k);
    forall j | k < j ensures !OccursAt(file, "/", j) {
      OccursAtByte(file, '/', j);
    }
    LastIndexIs(file, "/", k);
  }

  /** A path with no "/" after index 0 (such as "/c.go") is left as it is. */
  lemma ShortFileUntrimmed(file: string)
    requires forall j :: 0 < j < |file| ==> file[j] != '/'
    ensures ShortFile(file) == file
  {
    var k := LastIndex(file, "/");
    LastIndexSpec(file, "/");
    if k >= 1 {
      OccursAtByte(file, '/', k);
    }
  }

  /** The backwards scan of formatHeader for the last "/" at index 1 or later. */
  method ShortFileOf(file: string) returns (short: string)
    ensures short == ShortFile(file)
  {
    short := file;
    var i := |file| - 1;
    while i > 0
      invariant -1 <= i < |file|
      invariant forall j :: i < j < |file| ==> file[j] != '/'
    {
      if file[i] == '/' {
        ShortFileTrims(file, i);
        short := file[i + 1..];
        break;
      }
      i := i - 1;
    }
    if i <= 0 {
      ShortFileUntrimmed(file);
    }
  }

  /** The date field: `YYYY/MM/DD `. */
  function DateText(t: Time): string
    requires ValidTime(t)
  {
    Padded(Uint(t.year), 4) + "/" + Padded(t.month, 2) + "/" + Padded(t.day, 2) + " "
  }

  /** The clock field: `HH:MM:SS`, then `.uuuuuu` when `micro`, then a space. */
  function ClockText(t: Time, micro: bool): string
    requires ValidTime(t)
  {
    Padded(t.hour, 2) + ":" + Padded(t.minute, 2) + ":" + Padded(t.second, 2) +
    (if micro then "." + Padded(t.nanosecond / 1000, 6) else []) + " "
  }

  /** The module field: `[module] `. */
  function ModuleText(name: string): string {
    "[" + name + "] "
  }

  /** The location field: the name, `:line` when the line is positive, then `: `. */
  function FileText(name: string, line: int): string {
    name + (if line > 0 then ":" + Padded(line, -1) else []) + ": "
  }

  function DatePart(flag: Flags, t: Time): string
    requires ValidTime(t)
  {
    if Has(flag, Ldate) then DateText(t) else []
  }

  function ClockPart(flag: Flags, t: Time): string
    requires ValidTime(t)
  {
    if Has(flag, Ltime | Lmicroseconds) then ClockText(t, Has(flag, Lmicroseconds)) else []
  }

  function LevelPart(flag: Flags, lvl: int): string
    requires Has(flag, Llevel) ==> 0 <= lvl < |LevelNames|
  {
    if Has(flag, Llevel) then LevelName(lvl) else []
  }

  function ModulePart(flag: Flags, file: string): string {
    if Has(flag, Lmodule) then ModuleText(ModuleOf(file)) else []
  }

  /** The file as the flags select it: trimmed with Lshortfile, whole with only Llongfile. */
  function FileName(flag: Flags, file: string): string {
    if Has(flag, Lshortfile) then ShortFile(file) else file
  }

  function FilePart(flag: Flags, file: string, line: int): string {
    if Has(flag, Lshortfile | Llongfile) then FileText(FileName(flag, file), line) else []
  }

  /** The whole header, field by field in its fixed order. */
  function Header(l: Logger, t: Time, file: string, line: int, lvl: int): string
    requires ValidTime(t)
    requires Has(l.flag, Llevel) ==> 0 <= lvl < |LevelNames|
  {
    l.prefix + DatePart(l.flag, t) + ClockPart(l.flag, t) + LevelPart(l.flag, lvl) +
    ModulePart(l.flag, file) + FilePart(l.flag, file, line)
  }

  /** The date and clock fields share one enclosing test in formatHeader. */
  lemma DateOrClock(flag: Flags)
    ensures Has(flag, Ldate | Ltime | Lmicroseconds) <==> Has(flag, Ldate) || Has(flag, Ltime | Lmicroseconds)
  {
  }

  method WriteDate(buf: Buffer, t: Time)
    requires ValidTime(t)
    modifies buf
    ensures buf.content == old(buf.content) + DateText(t)
  {
    ghost var c := buf.content;
    var y, m, d := Padded(Uint(t.year), 4), Padded(t.month, 2), Padded(t.day, 2);
    Itoa(buf, t.year, 4);
    buf.WriteByte('/');
    ConcatAssoc(c, y, "/");
    Itoa(buf, t.month, 2);
    ConcatAssoc(c, y + "/", m);
    buf.WriteByte('/');
    ConcatAssoc(c, y + "/" + m, "/");
    Itoa(buf, t.day, 2);
    ConcatAssoc(c, y + "/" + m + "/", d);
    buf.WriteByte(' ');
    ConcatAssoc(c, y + "/" + m + "/" + d, " ");
  }

  method WriteClock(buf: Buffer, t: Time, micro: bool)
    requires ValidTime(t)
    modifies buf
    ensures buf.content == old(buf.content) + ClockText(t, micro)
  {
    ghost var c := buf.content;
    var h, m, s := Padded(t.hour, 2), Padded(t.minute, 2), Padded(t.second, 2);
    Itoa(buf, t.hour, 2);
    buf.WriteByte(':');
    ConcatAssoc(c, h, ":");
    Itoa(buf, t.minute, 2);
    ConcatAssoc(c, h + ":", m);
    buf.WriteByte(':');
    ConcatAssoc(c, h + ":" + m, ":");
    Itoa(buf, t.second, 2);
    ConcatAssoc(c, h + ":" + m + ":", s);
    var frac := if micro then "." + Padded(t.nanosecond / 1000, 6) else [];
    if micro {
      buf.WriteByte('.');
      Itoa(buf, t.nanosecond / 1000, 6);
      ConcatAssoc(c + (h + ":" + m + ":" + s), ".", Padded(t.nanosecond / 1000, 6));
    }
    ConcatAssoc(c, h + ":" + m + ":" + s, frac);
    buf.WriteByte(' ');
    ConcatAssoc(c, h + ":" + m + ":" + s + frac, " ");
  }

  method WriteModule(buf: Buffer, name: string)
    modifies buf
    ensures buf.content == old(buf.content) + ModuleText(name)
  {
    ghost var c := buf.content;
    buf.WriteByte('[');
    buf.WriteString(name);
    ConcatAssoc(c, "[", name);
    buf.WriteByte(']');
    ConcatAssoc(c, "[" + name, "]");
    buf.WriteByte(' ');
    ConcatAssoc(c, "[" + name + "]", " ");
  }

  method WriteFileLine(buf: Buffer, name: string, line: int)
    requires -IntLimit <= line < IntLimit
    modifies buf
    ensures buf.content == old(buf.content) + FileText(name, line)
  {
    ghost var c := buf.content;
    buf.WriteString(name);
    var suffix := if line > 0 then ":" + Padded(line, -1) else [];
    if line > 0 {
      buf.WriteByte(':');
      Itoa(buf, line, -1);
      ConcatAssoc(c + name, ":", Padded(line, -1));
    }
    ConcatAssoc(c, name, suffix);
    buf.WriteString(": ");
    ConcatAssoc(c, name + suffix, ": ");
  }

  /** Appending the blocks of formatHeader one after the other appends the whole header. */
  lemma HeaderAppended(c: string, l: Logger, t: Time, file: string, line: int, lvl: int)
    requires ValidTime(t)
    requires Has(l.flag, Llevel) ==> 0 <= lvl < |LevelNames|
    ensures c + l.prefix + (DatePart(l.flag, t) + ClockPart(l.flag, t)) + LevelPart(l.flag, lvl) +
      ModulePart(l.flag, file) + FilePart(l.flag, file, line) == c + Header(l, t, file, line, lvl)
  {
    var dp, cp, lp := DatePart(l.flag, t), ClockPart(l.flag, t), LevelPart(l.flag, lvl);
    var mp, fp := ModulePart(l.flag, file), FilePart(l.flag, file, line);
    assert Header(l, t, file, line, lvl) == l.prefix + dp + cp + lp + mp + fp;
    ConcatAssoc(c + l.prefix, dp, cp);
    ConcatAssoc(c, l.prefix, dp);
    ConcatAssoc(c, l.prefix + dp, cp);
    ConcatAssoc(c, l.prefix + dp + cp, lp);
    ConcatAssoc(c, l.prefix + dp + cp + lp, mp);
    ConcatAssoc(c, l.prefix + dp + cp + lp + mp, fp);
  }

  /** The date and clock block of formatHeader, under their common test. */
  method WriteTimestamp(buf: Buffer, flag: Flags, t: Time)
    requires ValidTime(t)
    modifies buf
    ensures buf.content == old(buf.content) + (DatePart(flag, t) + ClockPart(flag, t))
  {
    ghost var c := buf.content;
    DateOrClock(flag);
    if Has(flag, Ldate | Ltime | Lmicroseconds) {
      if Has(flag, Ldate) {
        WriteDate(buf, t);
      }
      assert buf.content == c + DatePart(flag, t);
      if Has(flag, Ltime | Lmicroseconds) {
        WriteClock(buf, t, Has(flag, Lmicroseconds));
      }
      ConcatAssoc(c, DatePart(flag, t), ClockPart(flag, t));
    }
  }

  /** The level block of formatHeader. */
  method WriteLevel(buf: Buffer, flag: Flags, lvl: int)
    requires Has(flag, Llevel) ==> 0 <= lvl < |LevelNames|
    modifies buf
    ensures buf.content == old(buf.content) + LevelPart(flag, lvl)
  {
    if Has(flag, Llevel) {
      buf.WriteString(LevelNames[lvl]);
    }
  }

  /** The module block of formatHeader. */
  method WriteModulePart(buf: Buffer, flag: Flags, file: string)
    modifies buf
    ensures buf.content == old(buf.content) + ModulePart(flag, file)
  {
    if Has(flag, Lmodule) {
      WriteModule(buf, ModuleOf(file));
    }
  }

  /** The file block of formatHeader: the file, trimmed with Lshortfile, and the line. */
  method WriteLocation(buf: Buffer, flag: Flags, file: string, line: int)
    requires -IntLimit <= line < IntLimit
    modifies buf
    ensures buf.content == old(buf.content) + FilePart(flag, file, line)
  {
    if Has(flag, Lshortfile | Llongfile) {
      var name := file;
      if Has(flag, Lshortfile) {
        name := ShortFileOf(file);
      }
      WriteFileLine(buf, name, line);
    }
  }

  /**
   * formatHeader: appends the header to `buf`, field by field.  Everything
   * already in the buffer stays, unchanged, in front of it.
   */
  method FormatHeader(l: Logger, buf: Buffer, t: Time, file: string, line: int, lvl: int)
    requires ValidTime(t)
    requires Has(l.flag, Llevel) ==> 0 <= lvl < |LevelNames|
    requires -IntLimit <= line < IntLimit
    modifies buf
    ensures buf.content == old(buf.content) + Header(l, t, file, line, lvl)
  {
    ghost var c := buf.content;
    if l.prefix != "" {
      buf.WriteString(l.prefix);
    }
    assert buf.content == c + l.prefix;
    WriteTimestamp(buf, l.flag, t);
    WriteLevel(buf, l.flag, lvl);
    WriteModulePart(buf, l.flag, file);
    WriteLocation(buf, l.flag, file, line);
    HeaderAppended(c, l, t, file, line, lvl);
  }
}

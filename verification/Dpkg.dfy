/**
 The dpkg status reader (internal/agent/collect/installed_linux.go): a line-by-line parser with a
 flush at every blank line and at the end. The input is the scanner's lines.
 */
module Dpkg {
  import opened Wire

  predicate HasPrefix(s: string, p: string) {
    |p| <= |s| && s[..|p|] == p
  }

  /** strings.TrimPrefix of a prefix that is there. */
  function After(s: string, p: string): string
    requires HasPrefix(s, p)
  {
    s[|p|..]
  }

  /** strings.Contains */
  predicate Contains(s: string, sub: string) {
    HasPrefix(s, sub) || (s != "" && Contains(s[1..], sub))
  }

  const PACKAGE: string := "Package: "
  const VERSION: string := "Version: "
  const MAINTAINER: string := "Maintainer: "
  const STATUS: string := "Status: "
  const INSTALLED: string := "install ok installed"

  function StrPtr(s: string): Option<string> {
    if s == "" then None else Some(s)
  }

  /** The stanza read so far. */
  datatype Fields = Fields(pkg: string, ver: string, maint: string, installed: bool)

  const BLANK: Fields := Fields("", "", "", false)

  function PackageDelta(f: Fields): SoftwareDelta {
    SoftwareDelta(Upsert, Installed, f.pkg, StrPtr(f.maint), StrPtr(f.ver), None, true, None, None, None, None, None)
  }

  function Flush(f: Fields): seq<SoftwareDelta> {
    if f.pkg != "" && f.installed then [PackageDelta(f)] else []
  }

  function ReadField(f: Fields, line: string): Fields {
    if HasPrefix(line, PACKAGE) then f.(pkg := After(line, PACKAGE))
    else if HasPrefix(line, VERSION) then f.(ver := After(line, VERSION))
    else if HasPrefix(line, MAINTAINER) then f.(maint := After(line, MAINTAINER))
    else if HasPrefix(line, STATUS) then f.(installed := Contains(line, INSTALLED))
    else f
  }

  /** What is still to come from `lines`, with `f` read of the current stanza. */
  function Parse(f: Fields, lines: seq<string>): seq<SoftwareDelta>
    decreases |lines|
  {
    if lines == [] then Flush(f)
    else if lines[0] == "" then Flush(f) + Parse(BLANK, lines[1..])
    else Parse(ReadField(f, lines[0]), lines[1..])
  }

  method ReadDpkg(lines: seq<string>) returns (out: seq<SoftwareDelta>)
    ensures out == Parse(BLANK, lines)
  {
    out := [];
    var pkg, ver, maint, installed := "", "", "", false;
    assert lines[0..] == lines;
    for i := 0 to |lines|
      invariant out + Parse(Fields(pkg, ver, maint, installed), lines[i..]) == Parse(BLANK, lines)
    {
      var line := lines[i];
      ghost var f := Fields(pkg, ver, maint, installed);
      assert lines[i..][0] == line && lines[i..][1..] == lines[i + 1..];
      if line == "" {
        if pkg != "" && installed {
          out := out + [SoftwareDelta(Upsert, Installed, pkg, StrPtr(maint), StrPtr(ver), None, true, None, None, None, None, None)];
        }
        pkg, ver, maint, installed := "", "", "", false;
        continue;
      }
      if HasPrefix(line, PACKAGE) {
        pkg := After(line, PACKAGE);
      } else if HasPrefix(line, VERSION) {
        ver := After(line, VERSION);
      } else if HasPrefix(line, MAINTAINER) {
        maint := After(line, MAINTAINER);
      } else if HasPrefix(line, STATUS) {
        installed := Contains(line, INSTALLED);
      }
      assert Fields(pkg, ver, maint, installed) == ReadField(f, line);
    }
    assert lines[|lines|..] == [];
    if pkg != "" && installed {
      out := out + [SoftwareDelta(Upsert, Installed, pkg, StrPtr(maint), StrPtr(ver), None, true, None, None, None, None, None)];
    }
  }

  // ---------------------------------------------------------------- laws

  /** A blank line is a clean cut: what follows it is parsed as if it were a file of its own. */
  lemma {:induction false} ParseSplits(f: Fields, a: seq<string>, b: seq<string>)
    ensures Parse(f, a + [""] + b) == Parse(f, a) + Parse(BLANK, b)
    decreases |a|
  {
    if a == [] {
      assert a + [""] + b == [""] + b && ([""] + b)[1..] == b;
    } else {
      var lines := a + [""] + b;
      assert lines[0] == a[0] && lines[1..] == a[1..] + [""] + b;
      if a[0] == "" {
        ParseSplits(BLANK, a[1..], b);
      } else {
        ParseSplits(ReadField(f, a[0]), a[1..], b);
      }
    }
  }

  // ---------------------------------------------------------------- what the lines say

  lemma {:induction false} ContainsMiddle(before: string, sub: string, after: string)
    ensures Contains(before + sub + after, sub)
  {
    var s := before + sub + after;
    if before == "" {
      assert s[..|sub|] == sub;
    } else {
      assert s[1..] == before[1..] + sub + after;
      ContainsMiddle(before[1..], sub, after);
    }
  }

  lemma {:induction false} ContainsIff(s: string, sub: string)
    ensures Contains(s, sub) <==> exists before, after :: s == before + sub + after
  {
    if HasPrefix(s, sub) {
      assert s == "" + sub + s[|sub|..];
    } else if Contains(s, sub) {
      ContainsIff(s[1..], sub);
      var before, after :| s[1..] == before + sub + after;
      assert s == ([s[0]] + before) + sub + after;
    }
    if before, after :| s == before + sub + after {
      ContainsMiddle(before, sub, after);
    }
  }

  /**
   One stanza in the file's own words: it yields the package with its maintainer as publisher, signed and
   without a hash, just when it is named and its status line has the marker.
   */
  lemma StanzaYields(name: string, version: string, maintainer: string, status: string)
    ensures Parse(BLANK, ["Package: " + name, "Status: " + status, "Version: " + version, "Maintainer: " + maintainer]) ==
            if name != "" && exists before, after :: status == before + "install ok installed" + after then
              [SoftwareDelta(Upsert, Installed, name, if maintainer == "" then None else Some(maintainer),
                             if version == "" then None else Some(version), None, true, None, None, None, None, None)]
            else
              []
  {
    var ls := [Line(PackageField, name), Line(StatusField, status), Line(VersionField, version), Line(MaintainerField, maintainer)];
    assert ls[1..] == [ls[1], ls[2], ls[3]] && ls[1..][1..] == [ls[2], ls[3]] && ls[1..][1..][1..] == [ls[3]] && ls[1..][1..][1..][1..] == [];
    assert PrintStanza([ls[3]]) == [Print(ls[3])];
    assert PrintStanza([ls[2], ls[3]]) == [Print(ls[2]), Print(ls[3])];
    assert PrintStanza([ls[1], ls[2], ls[3]]) == [Print(ls[1]), Print(ls[2]), Print(ls[3])];
    assert PrintStanza(ls) == ["Package: " + name, "Status: " + status, "Version: " + version, "Maintainer: " + maintainer];
    ParseStanza(ls);
    assert ls[..3] == [ls[0], ls[1], ls[2]] && ls[..3][..2] == [ls[0], ls[1]] && ls[..3][..2][..1] == [ls[0]];
    LastValues(ls);
    ContainsIff(status, INSTALLED);
  }

  lemma LastValues(ls: seq<Line>)
    requires |ls| == 4 && ls[0].field == PackageField && ls[1].field == StatusField && ls[2].field == VersionField && ls[3].field == MaintainerField
    ensures LastValue(ls, PackageField) == ls[0].value && LastValue(ls, StatusField) == ls[1].value
    ensures LastValue(ls, VersionField) == ls[2].value && LastValue(ls, MaintainerField) == ls[3].value
  {
    var l3, l2, l1 := ls[..3], ls[..2], ls[..1];
    assert l3[..2] == l2 && l2[..1] == l1;
    assert LastValue(l1, PackageField) == ls[0].value;
    assert LastValue(l2, PackageField) == ls[0].value && LastValue(l2, StatusField) == ls[1].value;
    assert LastValue(l3, PackageField) == ls[0].value && LastValue(l3, StatusField) == ls[1].value && LastValue(l3, VersionField) == ls[2].value;
  }

  // ---------------------------------------------------------------- printing stanzas

  datatype Field = PackageField | VersionField | MaintainerField | StatusField | OtherField

  /**
   One line of a control stanza: a field the reader knows, or any other line, such as another field
   or a continuation line (section 5.1 of the Debian Policy Manual).
   */
  datatype Line = Line(field: Field, value: string)

  function Print(l: Line): string {
    match l.field
    case PackageField => PACKAGE + l.value
    case VersionField => VERSION + l.value
    case MaintainerField => MAINTAINER + l.value
    case StatusField => STATUS + l.value
    case OtherField => l.value
  }

  /** Other lines are not empty and do not pass for a known field. */
  predicate Printable(l: Line) {
    l.field.OtherField? ==>
      && l.value != "" && !HasPrefix(l.value, PACKAGE) && !HasPrefix(l.value, VERSION)
      && !HasPrefix(l.value, MAINTAINER) && !HasPrefix(l.value, STATUS)
  }

  predicate PrintableAll(ls: seq<Line>) {
    forall l <- ls :: Printable(l)
  }

  function PrintStanza(ls: seq<Line>): seq<string> {
    if ls == [] then [] else [Print(ls[0])] + PrintStanza(ls[1..])
  }

  /** Stanzas separated by one blank line. */
  function PrintAll(stanzas: seq<seq<Line>>): seq<string> {
    if stanzas == [] then []
    else if |stanzas| == 1 then PrintStanza(stanzas[0])
    else PrintStanza(stanzas[0]) + [""] + PrintAll(stanzas[1..])
  }

  /** The last line of a field decides; a stanza without one has the empty value. */
  function LastValue(ls: seq<Line>, field: Field): string {
    if ls == [] then ""
    else if ls[|ls| - 1].field == field then ls[|ls| - 1].value
    else LastValue(ls[..|ls| - 1], field)
  }

  /** The package a stanza describes: listed iff it is named and its status says installed. */
  function Described(ls: seq<Line>): seq<SoftwareDelta> {
    if LastValue(ls, PackageField) != "" && Contains(LastValue(ls, StatusField), INSTALLED) then
      [SoftwareDelta(Upsert, Installed, LastValue(ls, PackageField), StrPtr(LastValue(ls, MaintainerField)),
                     StrPtr(LastValue(ls, VersionField)), None, true, None, None, None, None, None)]
    else
      []
  }

  function DescribedAll(stanzas: seq<seq<Line>>): seq<SoftwareDelta> {
    if stanzas == [] then [] else Described(stanzas[0]) + DescribedAll(stanzas[1..])
  }

  /** The fields after reading printed lines, as the reader holds them. */
  function Held(ls: seq<Line>): Fields {
    if ls == [] then BLANK else ReadField(Held(ls[..|ls| - 1]), Print(ls[|ls| - 1]))
  }

  lemma PrefixChars(s: string, p: string)
    ensures HasPrefix(s, p) ==> forall k :: 0 <= k < |p| ==> s[k] == p[k]
  {
  }

  /** The status marker cannot start inside the field name. */
  lemma StatusMarker(v: string)
    ensures Contains(STATUS + v, INSTALLED) <==> Contains(v, INSTALLED)
  {
    var line := STATUS + v;
    SkipUnmatched(line, 8);
    assert line[8..] == v;
  }

  lemma {:induction false} SkipUnmatched(s: string, n: nat)
    requires n <= |s| && forall i :: 0 <= i < n ==> s[i] != 'i'
    ensures Contains(s, INSTALLED) <==> Contains(s[n..], INSTALLED)
  {
    if n > 0 {
      PrefixChars(s, INSTALLED);
      assert INSTALLED[0] == 'i' && s[0] != 'i';
      SkipUnmatched(s[1..], n - 1);
      assert s[1..][n - 1..] == s[n..];
    } else {
      assert s[0..] == s;
    }
  }

  lemma PrefixOf(p: string, v: string)
    ensures HasPrefix(p + v, p) && After(p + v, p) == v
  {
  }

  /** The field names differ within their first two characters. */
  lemma OtherPrefix(p: string, q: string, v: string)
    requires |p| >= 2 && |q| >= 2 && (p[0] != q[0] || p[1] != q[1])
    ensures !HasPrefix(p + v, q)
  {
  }

  lemma ReadPrinted(f: Fields, l: Line)
    requires Printable(l)
    ensures ReadField(f, Print(l)) ==
            match l.field
            case PackageField => f.(pkg := l.value)
            case VersionField => f.(ver := l.value)
            case MaintainerField => f.(maint := l.value)
            case StatusField => f.(installed := Contains(l.value, INSTALLED))
            case OtherField => f
    ensures Print(l) != ""
  {
    var v := l.value;
    match l.field
    case PackageField => PrefixOf(PACKAGE, v);
    case VersionField =>
      PrefixOf(VERSION, v);
      OtherPrefix(VERSION, PACKAGE, v);
    case MaintainerField =>
      PrefixOf(MAINTAINER, v);
      OtherPrefix(MAINTAINER, PACKAGE, v);
      OtherPrefix(MAINTAINER, VERSION, v);
    case StatusField =>
      PrefixOf(STATUS, v);
      OtherPrefix(STATUS, PACKAGE, v);
      OtherPrefix(STATUS, VERSION, v);
      OtherPrefix(STATUS, MAINTAINER, v);
      StatusMarker(v);
    case OtherField =>
  }

  lemma {:induction false} HeldIsLast(ls: seq<Line>)
    requires PrintableAll(ls)
    ensures Held(ls) == Fields(LastValue(ls, PackageField), LastValue(ls, VersionField), LastValue(ls, MaintainerField),
                               Contains(LastValue(ls, StatusField), INSTALLED))
  {
    if ls == [] {
      assert !Contains("", INSTALLED);
    } else {
      var init, l := ls[..|ls| - 1], ls[|ls| - 1];
      assert ls == init + [l] && l in ls;
      HeldIsLast(init);
      ReadPrinted(Held(init), l);
    }
  }

  /** Reading on through printed lines. */
  lemma {:induction false} ParsePrinted(ls: seq<Line>, n: nat)
    requires n <= |ls| && PrintableAll(ls)
    ensures Parse(Held(ls[..n]), PrintStanza(ls[n..])) == Flush(Held(ls))
    decreases |ls| - n
  {
    if n == |ls| {
      assert ls[..n] == ls;
    } else {
      assert ls[n] in ls;
      ReadPrinted(Held(ls[..n]), ls[n]);
      assert ls[..n + 1][..n] == ls[..n] && ls[n..][1..] == ls[n + 1..];
      ParsePrinted(ls, n + 1);
    }
  }

  lemma ParseStanza(ls: seq<Line>)
    requires PrintableAll(ls)
    ensures Parse(BLANK, PrintStanza(ls)) == Described(ls)
  {
    ParsePrinted(ls, 0);
    assert ls[..0] == [] && ls[0..] == ls;
    HeldIsLast(ls);
  }

  /**
   Round trip: printing any list of stanzas, with any other fields and continuation lines in any
   order, and parsing the text returns exactly the installed, named packages, in order, each with
   its last version and maintainer.
   */
  lemma {:induction false} PrintedStanzasAreRead(stanzas: seq<seq<Line>>)
    requires forall ls <- stanzas :: PrintableAll(ls)
    ensures Parse(BLANK, PrintAll(stanzas)) == DescribedAll(stanzas)
  {
    if stanzas != [] {
      assert stanzas[0] in stanzas;
      ParseStanza(stanzas[0]);
      if |stanzas| == 1 {
        assert stanzas[1..] == [];
      } else {
        PrintedStanzasAreRead(stanzas[1..]);
        ParseSplits(BLANK, PrintStanza(stanzas[0]), PrintAll(stanzas[1..]));
      }
    }
  }
}

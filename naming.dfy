/**
 * Path and file-name rules of the gateway: Python's `str.replace`, `os.path.join`
 * and `os.path.basename`, and the output name derived from an input name by
 * replacing every ".xlsx" with ".pdf" (pdf-printer/app/main.py:235, :275).
 */
module Naming {

  /** The gateway's mount of the staging directory. */
  const TmpDir: string := "/app/shared"
  const XlsxExt: string := ".xlsx"
  const PdfExt: string := ".pdf"

  /** True when `pat` occurs in `s` as a contiguous run of characters. */
  predicate Occurs(s: string, pat: string)
    requires |pat| > 0
    decreases |s|
  {
    |s| >= |pat| && (s[..|pat|] == pat || Occurs(s[1..], pat))
  }

  /**
   * `s.replace(pat, rep)` in Python: every non-overlapping occurrence of `pat`,
   * found scanning left to right, is replaced by `rep`.
   */
  function ReplaceAll(s: string, pat: string, rep: string): (r: string)
    requires |pat| > 0
    ensures !Occurs(s, pat) ==> r == s
    ensures |rep| < |pat| && Occurs(s, pat) ==> |r| < |s|
    ensures |rep| <= |pat| ==> |r| <= |s|
    ensures forall c :: c in r ==> c in s || c in rep
    decreases |s|
  {
    if |s| < |pat| then s
    else if s[..|pat|] == pat then rep + ReplaceAll(s[|pat|..], pat, rep)
    else [s[0]] + ReplaceAll(s[1..], pat, rep)
  }

  /** The output name both conversion endpoints derive from an input name. */
  function OutputName(filename: string): (out: string)
    ensures out == filename <==> !Occurs(filename, XlsxExt)
    ensures !Occurs(out, XlsxExt)
    ensures |out| <= |filename|
  {
    NoXlsxRemains(filename);
    ReplaceAll(filename, XlsxExt, PdfExt)
  }

  /** One more character in front of a string without ".xlsx" adds none, unless it starts one there. */
  lemma PrependNoXlsx(c: char, t: string)
    requires !Occurs(t, XlsxExt)
    requires |t| < 4 || c != XlsxExt[0] || t[..4] != XlsxExt[1..]
    ensures !Occurs([c] + t, XlsxExt)
  {
    assert ([c] + t)[1..] == t;
    if |t| >= 4 {
      assert ([c] + t)[..|XlsxExt|] == [c] + t[..4];
    }
  }

  /** A prefix without '.' of the replaced string is a prefix of the original: replacing only writes ".pdf". */
  lemma {:induction false} ReplacedPrefix(t: string, p: string)
    requires '.' !in p
    requires |ReplaceAll(t, XlsxExt, PdfExt)| >= |p| && ReplaceAll(t, XlsxExt, PdfExt)[..|p|] == p
    ensures |t| >= |p| && t[..|p|] == p
    decreases |p|
  {
    var r := ReplaceAll(t, XlsxExt, PdfExt);
    if p != [] && |t| >= |XlsxExt| {
      assert r[0] == p[0] != '.';
      assert t[..|XlsxExt|] != XlsxExt;
      var rest := ReplaceAll(t[1..], XlsxExt, PdfExt);
      assert r == [t[0]] + rest;
      assert rest[..|p| - 1] == r[1..|p|] == p[1..];
      ReplacedPrefix(t[1..], p[1..]);
      assert t[..|p|] == [t[0]] + t[1..][..|p| - 1];
    }
  }

  /** Every ".xlsx" is replaced: none is left in the output name, not even one formed across a replacement. */
  lemma {:induction false} NoXlsxRemains(s: string)
    ensures !Occurs(ReplaceAll(s, XlsxExt, PdfExt), XlsxExt)
    decreases |s|
  {
    if |s| >= |XlsxExt| {
      if s[..|XlsxExt|] == XlsxExt {
        var rest := ReplaceAll(s[|XlsxExt|..], XlsxExt, PdfExt);
        NoXlsxRemains(s[|XlsxExt|..]);
        PrependNoXlsx('f', rest);
        assert ['d'] + ("f" + rest) == "df" + rest;
        PrependNoXlsx('d', "f" + rest);
        assert ['p'] + ("df" + rest) == "pdf" + rest;
        PrependNoXlsx('p', "df" + rest);
        assert ("pdf" + rest)[0] == 'p' != XlsxExt[1];
        PrependNoXlsx('.', "pdf" + rest);
        assert PdfExt + rest == ['.'] + ("pdf" + rest);
      } else {
        var rest := ReplaceAll(s[1..], XlsxExt, PdfExt);
        NoXlsxRemains(s[1..]);
        if |rest| >= 4 && rest[..4] == XlsxExt[1..] {
          ReplacedPrefix(s[1..], XlsxExt[1..]);
          assert s[..|XlsxExt|] == [s[0]] + s[1..][..4];
        }
        PrependNoXlsx(s[0], rest);
      }
    }
  }

  /** POSIX `os.path.join(dir, name)`: an absolute `name` replaces `dir`. */
  function Join(dir: string, name: string): (p: string)
    ensures |name| > 0 && name[0] == '/' ==> p == name
    ensures !(|name| > 0 && name[0] == '/') ==>
      && |dir| + |name| <= |p| <= |dir| + 1 + |name|
      && p[..|dir|] == dir && p[|p| - |name|..] == name
      && (dir != "" && dir[|dir| - 1] != '/' ==> |p| > |dir| && p[|dir|] == '/')
    ensures !(|name| > 0 && name[0] == '/') && (dir == "" || dir[|dir| - 1] == '/') ==> p == dir + name
  {
    if |name| > 0 && name[0] == '/' then name
    else if |dir| == 0 || dir[|dir| - 1] == '/' then dir + name
    else dir + "/" + name
  }

  /** POSIX `os.path.basename(p)`: everything after the last '/'. */
  function Basename(p: string): (b: string)
    ensures '/' !in b
    ensures '/' !in p ==> b == p
  {
    if |p| == 0 then p
    else if p[|p| - 1] == '/' then ""
    else Basename(p[..|p| - 1]) + [p[|p| - 1]]
  }

  /**
   * The `"pdf"` value convert_in_shared_dir answers with:
   * `basename(join(TMP_DIR, filename).replace(".xlsx", ".pdf"))` (main.py:274-275, :303).
   */
  function PdfName(filename: string): (name: string)
    ensures '/' !in filename ==> name == OutputName(filename)
  {
    OutputPathInDir(filename);
    var out := OutputName(filename);
    assert '/' !in filename ==> '/' !in out;
    assert '/' !in filename ==> Join(TmpDir, out) == TmpDir + "/" + out;
    BasenameOfJoin(out);
    Basename(ReplaceAll(Join(TmpDir, filename), XlsxExt, PdfExt))
  }

  lemma BasenameOfJoin(name: string)
    ensures '/' !in name ==> Basename(Join(TmpDir, name)) == name
  {
    if '/' !in name {
      BasenameAfterSlash(TmpDir, name);
    }
  }

  /** A name without a '.' holds no ".xlsx". */
  lemma {:induction false} NoDotNoOccurrence(s: string)
    requires '.' !in s
    ensures !Occurs(s, XlsxExt)
    decreases |s|
  {
    if |s| >= |XlsxExt| {
      assert s[..|XlsxExt|][0] == s[0] != XlsxExt[0];
      NoDotNoOccurrence(s[1..]);
    }
  }

  /** The base name of `d + "/" + name` is `name` when `name` holds no '/'. */
  lemma {:induction false} BasenameAfterSlash(d: string, name: string)
    requires '/' !in name
    ensures Basename(d + "/" + name) == name
    decreases |name|
  {
    var p := d + "/" + name;
    if |name| > 0 {
      var last := |name| - 1;
      assert p[..|p| - 1] == d + "/" + name[..last];
      assert p[|p| - 1] == name[last];
      BasenameAfterSlash(d, name[..last]);
      assert name[..last] + [name[last]] == name;
    }
  }

  /** The first character of ".xlsx" occurs only at its start: no occurrence overlaps a suffix. */
  lemma NoStraddle(stem: string)
    requires 0 < |stem| < |XlsxExt|
    ensures (stem + XlsxExt)[..|XlsxExt|] != XlsxExt
  {
    var s := stem + XlsxExt;
    assert s[..|XlsxExt|][|stem|] == XlsxExt[0] != XlsxExt[|stem|];
  }

  /** Replacing in a name that ends in ".xlsx" replaces that final ".xlsx" too. */
  lemma {:induction false} OutputNameOfXlsx(stem: string)
    ensures OutputName(stem + XlsxExt) == OutputName(stem) + PdfExt
    decreases |stem|
  {
    var s := stem + XlsxExt;
    var n := |XlsxExt|;
    if |stem| == 0 {
      assert s == XlsxExt;
      assert s[n..] == [];
    } else if |stem| < n {
      NoStraddle(stem);
      assert s[1..] == stem[1..] + XlsxExt;
      OutputNameOfXlsx(stem[1..]);
      assert !Occurs(stem[1..], XlsxExt);
    } else if s[..n] == XlsxExt {
      assert stem[..n] == XlsxExt;
      assert s[n..] == stem[n..] + XlsxExt;
      OutputNameOfXlsx(stem[n..]);
    } else {
      assert stem[..n] == s[..n];
      assert s[1..] == stem[1..] + XlsxExt;
      OutputNameOfXlsx(stem[1..]);
    }
  }

  /** "report.xlsx" becomes "report.pdf". */
  lemma ReportExample()
    ensures OutputName("report.xlsx") == "report.pdf"
  {
    assert "report.xlsx" == "report" + XlsxExt;
    NoDotNoOccurrence("report");
    OutputNameOfXlsx("report");
  }

  /** Every ".xlsx" is replaced, not just the last one. */
  lemma EveryOccurrenceExample()
    ensures OutputName("a.xlsx.xlsx") == "a.pdf.pdf"
  {
    assert "a.xlsx.xlsx" == "a.xlsx" + XlsxExt;
    assert "a.xlsx" == "a" + XlsxExt;
    NoDotNoOccurrence("a");
    OutputNameOfXlsx("a.xlsx");
    OutputNameOfXlsx("a");
  }

  /** A name without ".xlsx" is its own output name. */
  lemma OtherExtensionExample()
    ensures OutputName("report.csv") == "report.csv"
  {
    assert "report.csv" == "report" + ".csv";
    OccursAfterDotlessPrefix("report", ".csv");
  }

  /** An occurrence of ".xlsx" in `p + s` lies inside `s` when `p` holds no '.'. */
  lemma {:induction false} OccursAfterDotlessPrefix(p: string, s: string)
    requires '.' !in p
    ensures Occurs(p + s, XlsxExt) <==> Occurs(s, XlsxExt)
    decreases |p|
  {
    if |p| > 0 {
      var t := p + s;
      if |t| >= |XlsxExt| {
        assert t[..|XlsxExt|][0] == p[0] != XlsxExt[0];
      }
      assert t[1..] == p[1..] + s;
      OccursAfterDotlessPrefix(p[1..], s);
    } else {
      assert p + s == s;
    }
  }

  /** Replacing in `p + s` leaves a prefix `p` alone when no occurrence can start inside it. */
  lemma {:induction false} ReplaceAfterPrefix(p: string, s: string, pat: string, rep: string)
    requires |pat| > 0 && pat[0] !in p
    ensures ReplaceAll(p + s, pat, rep) == p + ReplaceAll(s, pat, rep)
    decreases |p|
  {
    if |p| > 0 {
      var t := p + s;
      assert t[0] == p[0] != pat[0];
      if |t| >= |pat| {
        assert t[..|pat|][0] == t[0];
      }
      assert t[1..] == p[1..] + s;
      ReplaceAfterPrefix(p[1..], s, pat, rep);
    } else {
      assert p + s == s;
    }
  }

  /**
   * The source replaces on the whole path `join(TMP_DIR, name)`; that is the same as
   * joining the directory with the replaced name, so the store can be keyed by name.
   */
  lemma OutputPathInDir(filename: string)
    ensures ReplaceAll(Join(TmpDir, filename), XlsxExt, PdfExt) == Join(TmpDir, OutputName(filename))
  {
    if |filename| > 0 && filename[0] == '/' {
      var out := OutputName(filename);
      assert XlsxExt[0] !in "/";
      ReplaceAfterPrefix("/", filename[1..], XlsxExt, PdfExt);
      assert filename == "/" + filename[1..];
      assert out[0] == '/';
    } else {
      assert Join(TmpDir, filename) == (TmpDir + "/") + filename;
      ReplaceAfterPrefix(TmpDir + "/", filename, XlsxExt, PdfExt);
    }
  }
}

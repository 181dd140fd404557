/** Reading images: the choice of reader from the file suffix, the parser
    of ImageMagick's `identify -verbose` report from which the acquisition
    date of an optical image is taken when the image carries no EXIF date,
    and the grouping of DICOM files into time frames of slices.

    File access, the readers themselves and the pixel data are not part of
    this model: a path is given by its components, the `identify` report by
    its decoded text, and a DICOM file by its acquisition stamp and slice
    position.
 */
module ImageReading {
  import opened Results
  import opened Dicts

  // ---------------------------------------------------------------------
  // Suffixes and the choice of reader

  /** A path given by its components, e.g. ["data", "img.JPG"]. */
  type Path = seq<string>

  /** The final component (pathlib's `name`), "" for the empty path. */
  function Name(p: Path): string
  {
    if |p| == 0 then "" else p[|p| - 1]
  }

  /** `str.rfind(c)`: the last position of c, if any. */
  function LastIndexOf(s: string, c: char): (r: Option<nat>)
    ensures r.None? <==> c !in s
    ensures r.Some? ==> r.value < |s| && s[r.value] == c && c !in s[r.value + 1..]
  {
    if |s| == 0 then None
    else if s[|s| - 1] == c then Some(|s| - 1)
    else
      var r := LastIndexOf(s[..|s| - 1], c);
      assert s == s[..|s| - 1] + [s[|s| - 1]];
      if r.Some? then
        assert s[r.value + 1..] == s[..|s| - 1][r.value + 1..] + [s[|s| - 1]];
        r
      else r
  }

  /** pathlib's `suffix`: from the last dot of the name to its end, provided
      that dot is neither the first nor the last character; "" otherwise. */
  function Suffix(name: string): (r: string)
    ensures r == "" || (|r| >= 2 && r[0] == '.' && '.' !in r[1..] &&
                        |r| < |name| && name[|name| - |r|..] == r)
  {
    match LastIndexOf(name, '.')
    case None => ""
    case Some(i) =>
      if 0 < i < |name| - 1 then
        assert name[i..][1..] == name[i + 1..];
        name[i..]
      else ""
  }

  /** The last position of c in a + b lies in b when b holds c, else in a. */
  lemma {:induction false} LastIndexOfAppend(a: string, b: string, c: char)
    ensures LastIndexOf(a + b, c) ==
            if c in b then Some(|a| + LastIndexOf(b, c).value) else LastIndexOf(a, c)
    decreases |b|
  {
    if |b| == 0 {
      assert a + b == a;
    } else if b[|b| - 1] != c {
      assert (a + b)[..|a + b| - 1] == a + b[..|b| - 1];
      assert b == b[..|b| - 1] + [b[|b| - 1]];
      LastIndexOfAppend(a, b[..|b| - 1], c);
    }
  }

  /** A name made of a non-empty stem and an extension of a dot followed by
      at least one character other than a dot has that extension as its
      suffix. */
  lemma SuffixOf(stem: string, ext: string)
    requires stem != "" && |ext| >= 2 && ext[0] == '.' && '.' !in ext[1..]
    ensures Suffix(stem + ext) == ext
  {
    var name := stem + ext;
    assert name == (stem + ext[..1]) + ext[1..];
    LastIndexOfAppend(stem + ext[..1], ext[1..], '.');
    assert LastIndexOf(stem + ext[..1], '.') == Some(|stem|);
    assert name[|stem|..] == ext;
  }

  /** The names without a suffix: no dot at all, a trailing dot, or a
      single leading dot (a hidden file such as ".bashrc"). */
  lemma NoSuffix(name: string)
    ensures Suffix(name) == "" <==>
            '.' !in name || name[|name| - 1] == '.' || (name[0] == '.' && '.' !in name[1..])
  {
    if |name| > 0 {
      assert name == name[..1] + name[1..];
      LastIndexOfAppend(name[..1], name[1..], '.');
    }
  }

  function LowerChar(c: char): char
  {
    if 'A' <= c <= 'Z' then (c as int + 32) as char else c
  }

  predicate IsUpper(c: char)
  {
    'A' <= c <= 'Z'
  }

  /** `str.lower()` on ASCII letters: no upper-case letter is left, an
      upper-case letter becomes the letter at the same place of the
      alphabet, and every other character is kept. */
  function Lower(s: string): (r: string)
    ensures |r| == |s| && forall i :: 0 <= i < |s| ==> r[i] == LowerChar(s[i])
    ensures forall i :: 0 <= i < |r| ==> !IsUpper(r[i])
    ensures forall i :: 0 <= i < |s| ==> !IsUpper(s[i]) ==> r[i] == s[i]
    ensures forall i :: 0 <= i < |s| ==> IsUpper(s[i]) ==>
              'a' <= r[i] <= 'z' && r[i] as int - 'a' as int == s[i] as int - 'A' as int
  {
    seq(|s|, i requires 0 <= i < |s| => LowerChar(s[i]))
  }

  /** A text is its own lower-case form exactly when it holds no upper-case
      letter; in particular lowering twice is lowering once. */
  lemma LowerFixed(s: string)
    ensures Lower(s) == s <==> forall i :: 0 <= i < |s| ==> !IsUpper(s[i])
    ensures Lower(Lower(s)) == Lower(s)
  {
  }

  datatype Reader = NumpyReader | NpzReader | OpticalReader | DicomReader | VtuReader

  datatype ReadError =
    | NotImplemented(suffix: string)  // no reader for the suffix
    | MixedSuffixes                   // the files of a list differ in suffix
    | NoPaths                         // an empty list of files

  /** The readers by suffix, as a table. */
  const Readers: map<string, Reader> :=
    map[".npy" := NumpyReader, ".npz" := NpzReader,
        ".jpg" := OpticalReader, ".jpeg" := OpticalReader, ".png" := OpticalReader,
        ".tif" := OpticalReader, ".tiff" := OpticalReader,
        ".dcm" := DicomReader, ".vtu" := VtuReader]

  /** The reader for a suffix, compared exactly, or NotImplemented. */
  function Dispatch(suffix: string): (r: Result<Reader, ReadError>)
    ensures suffix in Readers ==> r == Ok(Readers[suffix])
    ensures suffix !in Readers ==> r == Err(NotImplemented(suffix))
  {
    if suffix == ".npy" then Ok(NumpyReader)
    else if suffix == ".npz" then Ok(NpzReader)
    else if suffix in [".jpg", ".jpeg", ".png", ".tif", ".tiff"] then Ok(OpticalReader)
    else if suffix in [".dcm"] then Ok(DicomReader)
    else if suffix in [".vtu"] then Ok(VtuReader)
    else Err(NotImplemented(suffix))
  }

  /** One path, or a list of paths (after a folder has been replaced by its
      sorted contents). */
  datatype PathArg = OnePath(path: Path) | PathList(paths: seq<Path>)

  predicate SameSuffix(ps: seq<Path>)
    requires |ps| > 0
  {
    forall k :: 0 <= k < |ps| ==> Suffix(Name(ps[k])) == Suffix(Name(ps[0]))
  }

  /** The suffix used for the choice of reader: a given suffix is used as it
      is; otherwise the suffix of the path, or of the first path of a list
      whose paths must all have that suffix, in lower case. */
  function FileSuffix(arg: PathArg, given: Option<string>): (r: Result<string, ReadError>)
    ensures given.Some? ==> r == Ok(given.value)
    ensures given.None? && arg.OnePath? ==> r == Ok(Lower(Suffix(Name(arg.path))))
    ensures given.None? && arg.PathList? ==>
              (r.Ok? <==> |arg.paths| > 0 && SameSuffix(arg.paths)) &&
              (|arg.paths| == 0 ==> r == Err(NoPaths)) &&
              (r.Ok? ==> forall k :: 0 <= k < |arg.paths| ==> r.value == Lower(Suffix(Name(arg.paths[k]))))
  {
    if given.Some? then Ok(given.value)
    else match arg
      case OnePath(p) => Ok(Lower(Suffix(Name(p))))
      case PathList(ps) =>
        if |ps| == 0 then Err(NoPaths)
        else if SameSuffix(ps) then Ok(Lower(Suffix(Name(ps[0]))))
        else Err(MixedSuffixes)
  }

  /** The reader `imread` calls. */
  function ReaderFor(arg: PathArg, given: Option<string>): (r: Result<Reader, ReadError>)
    ensures r.Ok? <==> FileSuffix(arg, given).Ok? && FileSuffix(arg, given).value in Readers
    ensures r.Ok? ==> r.value == Readers[FileSuffix(arg, given).value]
  {
    match FileSuffix(arg, given)
    case Err(e) => Err(e)
    case Ok(s) => Dispatch(s)
  }

  /** An inferred suffix is compared without regard to the case of ASCII
      letters, a given one exactly: "scan.JPG" is read as an optical image
      unless the suffix ".JPG" is passed explicitly. */
  lemma UpperCaseSuffix(stem: string)
    requires stem != ""
    ensures ReaderFor(OnePath([stem + ".JPG"]), None) == Ok(OpticalReader)
    ensures ReaderFor(OnePath([stem + ".JPG"]), Some(".JPG")) == Err(NotImplemented(".JPG"))
  {
    SuffixOf(stem, ".JPG");
    LowerJpg();
    assert FileSuffix(OnePath([stem + ".JPG"]), None) == Ok(".jpg");
  }

  lemma LowerJpg()
    ensures Lower(".JPG") == ".jpg" && Lower(".jpg") == ".jpg"
    ensures ".jpg" in Readers && Readers[".jpg"] == OpticalReader && ".JPG" !in Readers
  {
    var u, l := Lower(".JPG"), Lower(".jpg");
    assert u[0] == '.' && u[1] == 'j' && u[2] == 'p' && u[3] == 'g';
    assert l[0] == '.' && l[1] == 'j' && l[2] == 'p' && l[3] == 'g';
  }

  /** Paths whose suffixes differ cannot be read together, even when they
      differ only in case, so that each alone would be read by the same
      reader ("a.jpg" and "b.JPG", see UpperCaseSuffix). */
  lemma MixedCaseList(p: Path, q: Path)
    requires Suffix(Name(p)) != Suffix(Name(q))
    ensures ReaderFor(PathList([p, q]), None) == Err(MixedSuffixes)
  {
    var ps := [p, q];
    assert ps[0] == p && ps[1] == q;
    assert !SameSuffix(ps);
    assert FileSuffix(PathList(ps), None) == Err(MixedSuffixes);
  }

  /** The inferred choice depends on the suffix only through its lower-case
      form. */
  lemma InferredIgnoresCase(p: Path, q: Path)
    requires Lower(Suffix(Name(p))) == Lower(Suffix(Name(q)))
    ensures ReaderFor(OnePath(p), None) == ReaderFor(OnePath(q), None)
  {
  }

  // ---------------------------------------------------------------------
  // The `identify -verbose` report

  /** The line boundaries of `bytes.splitlines`: "\n", "\r" and "\r\n". */
  predicate IsLineBreak(c: char)
  {
    c == '\n' || c == '\r'
  }

  predicate NoBreak(s: string)
  {
    forall i :: 0 <= i < |s| ==> !IsLineBreak(s[i])
  }

  /** The position of the first line break, if any. */
  function FirstBreak(s: string): (r: Option<nat>)
    ensures r.None? <==> NoBreak(s)
    ensures r.Some? ==> r.value < |s| && IsLineBreak(s[r.value]) && NoBreak(s[..r.value])
  {
    if |s| == 0 then None
    else if IsLineBreak(s[0]) then Some(0)
    else match FirstBreak(s[1..])
      case None => None
      case Some(i) =>
        assert s[..i + 1] == [s[0]] + s[1..][..i];
        Some(i + 1)
  }

  /** `bytes.splitlines()`: the lines without their line boundaries; a
      final boundary does not start another line. */
  function SplitLines(s: string): (ls: seq<string>)
    ensures forall k :: 0 <= k < |ls| ==> NoBreak(ls[k])
    decreases |s|
  {
    match FirstBreak(s)
    case None => if |s| == 0 then [] else [s]
    case Some(i) =>
      var next := if s[i] == '\r' && i + 1 < |s| && s[i + 1] == '\n' then i + 2 else i + 1;
      [s[..i]] + SplitLines(s[next..])
  }

  /** The lines, each followed by the boundary eol. */
  function Joined(ls: seq<string>, eol: string): string
  {
    if |ls| == 0 then "" else ls[0] + eol + Joined(ls[1..], eol)
  }

  predicate IsBoundary(eol: string)
  {
    eol == "\n" || eol == "\r" || eol == "\r\n"
  }

  /** The first break of a + b is the first of b when a has none. */
  lemma {:induction false} FirstBreakAfter(a: string, b: string)
    requires NoBreak(a) && |b| > 0 && IsLineBreak(b[0])
    ensures FirstBreak(a + b) == Some(|a|)
  {
    if |a| > 0 {
      assert (a + b)[1..] == a[1..] + b;
      FirstBreakAfter(a[1..], b);
    }
  }

  /** One line and its boundary come off the front. */
  lemma SplitLinesStep(a: string, eol: string, rest: string)
    requires NoBreak(a) && IsBoundary(eol)
    requires eol == "\r" ==> rest == "" || rest[0] != '\n'
    ensures SplitLines(a + eol + rest) == [a] + SplitLines(rest)
  {
    var s := a + eol + rest;
    assert s == a + (eol + rest);
    FirstBreakAfter(a, eol + rest);
    assert s[..|a|] == a;
    assert s[|a| + |eol|..] == rest;
  }

  /** Text joined with "\r" does not start with "\n". */
  lemma JoinedStart(ls: seq<string>, eol: string)
    requires IsBoundary(eol)
    requires forall k :: 0 <= k < |ls| ==> NoBreak(ls[k])
    ensures Joined(ls, eol) == "" || !(Joined(ls, eol)[0] == '\n' && eol == "\r")
  {
    if |ls| > 0 {
      var s := Joined(ls, eol);
      if |ls[0]| > 0 {
        assert s[0] == ls[0][0];
      } else {
        assert s[0] == eol[0];
      }
    }
  }

  /** Splitting lines that each end in one of the three boundaries gives
      the lines back. */
  lemma {:induction false} SplitJoined(ls: seq<string>, eol: string)
    requires IsBoundary(eol)
    requires forall k :: 0 <= k < |ls| ==> NoBreak(ls[k])
    ensures SplitLines(Joined(ls, eol)) == ls
  {
    if |ls| > 0 {
      JoinedStart(ls[1..], eol);
      SplitLinesStep(ls[0], eol, Joined(ls[1..], eol));
      SplitJoined(ls[1..], eol);
    }
  }

  /** `str.split(c, 1)` when c occurs: the text before the first c and the
      text after it. */
  function SplitOnce(s: string, c: char): (r: Option<(string, string)>)
    ensures r.None? <==> c !in s
    ensures r.Some? ==> s == r.value.0 + [c] + r.value.1 && c !in r.value.0
  {
    if |s| == 0 then None
    else if s[0] == c then
      assert s == [] + [c] + s[1..];
      Some(([], s[1..]))
    else match SplitOnce(s[1..], c)
      case None => None
      case Some((k, v)) =>
        assert s == [s[0]] + s[1..];
        Some(([s[0]] + k, v))
  }

  /** Splitting at the first c: a key without c and the value after it,
      whatever the value holds. */
  lemma {:induction false} SplitOnceJoin(k: string, v: string, c: char)
    requires c !in k
    ensures SplitOnce(k + [c] + v, c) == Some((k, v))
  {
    var s := k + [c] + v;
    if |k| > 0 {
      assert s[0] == k[0];
      assert s[1..] == k[1..] + [c] + v;
      SplitOnceJoin(k[1..], v, c);
      assert [k[0]] + k[1..] == k;
    } else {
      assert s[1..] == v;
    }
  }

  /** The characters `str.isspace` accepts. */
  predicate IsSpace(c: char)
  {
    || c == ' ' || c == '\t' || c == '\n' || c == '\r'
    || c == '\U{0B}' || c == '\U{0C}' || ('\U{1C}' <= c <= '\U{1F}')
    || c == '\U{85}' || c == '\U{A0}' || c == '\U{1680}' || ('\U{2000}' <= c <= '\U{200A}')
    || c == '\U{2028}' || c == '\U{2029}' || c == '\U{202F}' || c == '\U{205F}' || c == '\U{3000}'
  }

  predicate AllSpace(s: string)
  {
    forall i :: 0 <= i < |s| ==> IsSpace(s[i])
  }

  /** The number of leading white-space characters. */
  function LeadingSpace(s: string): (n: nat)
    ensures n <= |s| && AllSpace(s[..n]) && (n == |s| || !IsSpace(s[n]))
  {
    if |s| > 0 && IsSpace(s[0]) then
      var n := LeadingSpace(s[1..]);
      var head := s[..n + 1];
      assert AllSpace(head) by {
        forall i | 0 < i < n + 1
          ensures IsSpace(head[i])
        {
          assert head[i] == s[1..][..n][i - 1];
        }
      }
      n + 1
    else 0
  }

  /** The number of characters before the trailing white space. */
  function BeforeTrailingSpace(s: string): (n: nat)
    ensures n <= |s| && AllSpace(s[n..]) && (n == 0 || !IsSpace(s[n - 1]))
  {
    if |s| > 0 && IsSpace(s[|s| - 1]) then
      var n := BeforeTrailingSpace(s[..|s| - 1]);
      assert forall i :: n <= i < |s| - 1 ==> s[i] == s[..|s| - 1][i];
      n
    else |s|
  }

  /** `str.lstrip()`. */
  function LStrip(s: string): (r: string)
  {
    s[LeadingSpace(s)..]
  }

  /** `str.strip()`. */
  function Strip(s: string): (r: string)
  {
    var t := LStrip(s);
    t[..BeforeTrailingSpace(t)]
  }

  /** `lstrip` takes exactly the leading white space off: s is the result
      with white space before it, and the result does not start with white
      space. */
  lemma LStripIsTrim(s: string)
    ensures var r := LStrip(s);
            s == s[..|s| - |r|] + r && AllSpace(s[..|s| - |r|]) && (r == "" || !IsSpace(r[0]))
  {
    var n := LeadingSpace(s);
    assert s == s[..n] + s[n..];
  }

  /** `rstrip` takes exactly the trailing white space off. */
  lemma RStripIsTrim(t: string)
    ensures var m := BeforeTrailingSpace(t);
            t == t[..m] + t[m..] && AllSpace(t[m..]) && (m == 0 || !IsSpace(t[..m][m - 1]))
  {
    var m := BeforeTrailingSpace(t);
    assert t == t[..m] + t[m..];
    if m > 0 {
      assert t[..m][m - 1] == t[m - 1];
    }
  }

  /** `strip` takes exactly the white space off both ends: s is the result
      with white space before and after it, and the result neither starts
      nor ends with white space. */
  lemma StripIsTrim(s: string)
    ensures var r := Strip(s); var i := LeadingSpace(s);
            && i + |r| <= |s| && s == s[..i] + r + s[i + |r|..]
            && AllSpace(s[..i]) && AllSpace(s[i + |r|..])
            && (r == "" || (!IsSpace(r[0]) && !IsSpace(r[|r| - 1])))
  {
    StripSplits(s);
    StripEnds(s);
  }

  lemma StripSplits(s: string)
    ensures var r := Strip(s); var i := LeadingSpace(s);
            && i + |r| <= |s| && s == s[..i] + r + s[i + |r|..] && AllSpace(s[i + |r|..])
  {
    var i := LeadingSpace(s);
    var t := s[i..];
    var m := BeforeTrailingSpace(t);
    assert Strip(s) == t[..m];
    assert t[..m] == s[i..i + m];
    assert t[m..] == s[i + m..];
    SplitThree(s, i, i + m);
  }

  lemma SplitThree(s: string, i: nat, j: nat)
    requires i <= j <= |s|
    ensures s == s[..i] + s[i..j] + s[j..]
  {
  }

  lemma StripEnds(s: string)
    ensures var r := Strip(s); r == "" || (!IsSpace(r[0]) && !IsSpace(r[|r| - 1]))
  {
    var t := LStrip(s);
    var r := Strip(s);
    RStripIsTrim(t);
    if r != "" {
      assert r[0] == t[0];
    }
  }

  datatype IdentifyError =
    | LineWithoutColon(line: string)  // unpacking the split of a line fails
    | NoDate                          // the report has no "date" entry
    | DateWithoutColon(value: string) // the "date" entry has no second part

  predicate HasColon(line: string)
  {
    ':' in line
  }

  /** The entry a line contributes: the key before the first colon without
      leading white space, the value after it stripped. */
  function LineEntry(line: string): (e: (string, string))
    requires HasColon(line)
  {
    var kv := SplitOnce(line, ':').value;
    (LStrip(kv.0), Strip(kv.1))
  }

  /** The entries of the lines, or the first line without a colon. */
  function LineEntries(lines: seq<string>): (r: Result<seq<(string, string)>, IdentifyError>)
    ensures r.Ok? <==> forall k :: 0 <= k < |lines| ==> HasColon(lines[k])
    ensures r.Ok? ==> |r.value| == |lines|
    ensures r.Ok? ==> forall k :: 0 <= k < |lines| ==> r.value[k] == LineEntry(lines[k])
    ensures r.Err? ==> r.error.LineWithoutColon? && r.error.line in lines && !HasColon(r.error.line)
  {
    if |lines| == 0 then Ok([])
    else if !HasColon(lines[0]) then Err(LineWithoutColon(lines[0]))
    else match LineEntries(lines[1..])
      case Err(e) => Err(e)
      case Ok(es) => Ok([LineEntry(lines[0])] + es)
  }

  /** All lines of the report but the last. */
  function ReportBody(output: string): seq<string>
  {
    var lines := SplitLines(output);
    if |lines| == 0 then [] else lines[..|lines| - 1]
  }

  /** The report as a dictionary, filled line by line, so that a later line
      with the same key overwrites an earlier one. */
  function IdentifyMetadata(output: string): (r: Result<seq<(string, string)>, IdentifyError>)
    ensures r.Ok? <==> forall k :: 0 <= k < |ReportBody(output)| ==> HasColon(ReportBody(output)[k])
    ensures r.Ok? ==> r.value == PutAll([], LineEntries(ReportBody(output)).value)
  {
    match LineEntries(ReportBody(output))
    case Err(e) => Err(e)
    case Ok(es) => Ok(PutAll([], es))
  }

  /** `spl[1][1:]`: a text without its first character. */
  function DropFirst(s: string): (r: string)
  {
    if |s| == 0 then "" else s[1..]
  }

  /** The date text of the report's dictionary: the "date" value after its
      first colon, without the character that follows that colon. */
  function DateOf(meta: seq<(string, string)>): (r: Result<string, IdentifyError>)
    ensures Lookup(meta, "date").None? ==> r == Err(NoDate)
    ensures Lookup(meta, "date").Some? ==> (r.Ok? <==> ':' in Lookup(meta, "date").value)
    ensures r.Ok? ==> exists a, b :: Lookup(meta, "date") == Some(a + [':'] + b) && ':' !in a &&
                                     r.value == DropFirst(b)
  {
    match Lookup(meta, "date")
    case None => Err(NoDate)
    case Some(v) =>
      match SplitOnce(v, ':')
      case None => Err(DateWithoutColon(v))
      case Some((a, b)) => Ok(DropFirst(b))
  }

  /** The acquisition date text `identify` reports, or the error that ends
      the reading. */
  function IdentifyDate(output: string): (r: Result<string, IdentifyError>)
    ensures IdentifyMetadata(output).Err? ==> r == Err(IdentifyMetadata(output).error)
    ensures IdentifyMetadata(output).Ok? ==> r == DateOf(IdentifyMetadata(output).value)
  {
    match IdentifyMetadata(output)
    case Err(e) => Err(e)
    case Ok(meta) => DateOf(meta)
  }

  /** The body of a report whose lines end in one boundary is all its lines
      but the last. */
  lemma ReportBodyJoined(ls: seq<string>, eol: string)
    requires IsBoundary(eol)
    requires forall k :: 0 <= k < |ls| ==> NoBreak(ls[k])
    ensures ReportBody(Joined(ls, eol)) == if |ls| == 0 then [] else ls[..|ls| - 1]
  {
    SplitJoined(ls, eol);
  }

  /** The keys of the parsed report are distinct and are the keys of the
      body's lines. */
  lemma IdentifyKeys(output: string, key: string)
    requires IdentifyMetadata(output).Ok?
    ensures Distinct(Keys(IdentifyMetadata(output).value))
    ensures key in Keys(IdentifyMetadata(output).value) <==>
            exists k :: 0 <= k < |ReportBody(output)| && LineEntry(ReportBody(output)[k]).0 == key
  {
    var body := ReportBody(output);
    var es := LineEntries(body).value;
    PutAllKeys([], es);
    assert Keys<string>([]) == [];
    if key in Keys(es) {
      var k :| 0 <= k < |es| && Keys(es)[k] == key;
      assert LineEntry(body[k]).0 == key;
    }
  }

  /** A key of the parsed report has the value of the last body line with
      that key. */
  lemma IdentifyLastLineWins(output: string, key: string)
    requires IdentifyMetadata(output).Ok?
    requires Lookup(IdentifyMetadata(output).value, key).Some?
    ensures var body := ReportBody(output);
            exists k :: 0 <= k < |body| &&
                        LineEntry(body[k]) == (key, Lookup(IdentifyMetadata(output).value, key).value) &&
                        forall k' :: k < k' < |body| ==> LineEntry(body[k']).0 != key
  {
    var body := ReportBody(output);
    var es := LineEntries(body).value;
    PutAllLookup([], es, key);
    LastValueIsLast(es, key);
  }

  /** The date text comes from the last body line whose key is "date": its
      value after the first colon, less one character. */
  lemma IdentifyDateLastLine(output: string)
    requires IdentifyDate(output).Ok?
    ensures var body := ReportBody(output);
            exists k :: 0 <= k < |body| && LineEntry(body[k]).0 == "date" &&
                        (forall k' :: k < k' < |body| ==> LineEntry(body[k']).0 != "date") &&
                        exists a, b :: LineEntry(body[k]).1 == a + [':'] + b && ':' !in a &&
                                       IdentifyDate(output).value == DropFirst(b)
  {
    IdentifyLastLineWins(output, "date");
  }

  /** Reading the date ends in one of three errors, each stated on the
      report's body lines: some line has no colon; no line has the key
      "date"; or the last "date" line's value has no colon. Otherwise the
      date is read. */
  lemma IdentifyDateOutcome(output: string)
    ensures var body := ReportBody(output);
            IdentifyDate(output).Err? && IdentifyDate(output).error.LineWithoutColon? <==>
              exists k :: 0 <= k < |body| && !HasColon(body[k])
    ensures var body := ReportBody(output);
            IdentifyDate(output) == Err(NoDate) <==>
              forall k :: 0 <= k < |body| ==> HasColon(body[k]) && LineEntry(body[k]).0 != "date"
    ensures var body := ReportBody(output);
            IdentifyDate(output).Err? && IdentifyDate(output).error.DateWithoutColon? <==>
              && (forall k :: 0 <= k < |body| ==> HasColon(body[k]))
              && exists k :: 0 <= k < |body| && LineEntry(body[k]).0 == "date" && ':' !in LineEntry(body[k]).1 &&
                             forall k' :: k < k' < |body| ==> LineEntry(body[k']).0 != "date"
  {
    IdentifyDateLines(output);
    IdentifyDateNoDate(output);
    IdentifyDateWithoutColon(output);
  }

  lemma IdentifyDateLines(output: string)
    ensures var body := ReportBody(output);
            IdentifyDate(output).Err? && IdentifyDate(output).error.LineWithoutColon? <==>
              exists k :: 0 <= k < |body| && !HasColon(body[k])
  {
  }

  lemma IdentifyDateNoDate(output: string)
    ensures var body := ReportBody(output);
            IdentifyDate(output) == Err(NoDate) <==>
              forall k :: 0 <= k < |body| ==> HasColon(body[k]) && LineEntry(body[k]).0 != "date"
  {
    if IdentifyMetadata(output).Ok? {
      IdentifyKeys(output, "date");
    }
  }

  lemma IdentifyDateWithoutColon(output: string)
    ensures var body := ReportBody(output);
            IdentifyDate(output).Err? && IdentifyDate(output).error.DateWithoutColon? <==>
              && (forall k :: 0 <= k < |body| ==> HasColon(body[k]))
              && exists k :: 0 <= k < |body| && LineEntry(body[k]).0 == "date" && ':' !in LineEntry(body[k]).1 &&
                             forall k' :: k < k' < |body| ==> LineEntry(body[k']).0 != "date"
  {
    var meta := IdentifyMetadata(output);
    if meta.Ok? {
      IdentifyKeys(output, "date");
      if Lookup(meta.value, "date").Some? {
        IdentifyLastLineWins(output, "date");
        LastDateLineValue(output);
      }
    }
  }

  /** Every last "date" line of a parsed report holds the looked-up value. */
  lemma LastDateLineValue(output: string)
    requires IdentifyMetadata(output).Ok? && Lookup(IdentifyMetadata(output).value, "date").Some?
    ensures var body := ReportBody(output);
            forall k :: 0 <= k < |body| && LineEntry(body[k]).0 == "date" &&
                        (forall k' :: k < k' < |body| ==> LineEntry(body[k']).0 != "date") ==>
                        LineEntry(body[k]).1 == Lookup(IdentifyMetadata(output).value, "date").value
  {
    var body := ReportBody(output);
    IdentifyLastLineWins(output, "date");
    var k0 :| 0 <= k0 < |body| &&
              LineEntry(body[k0]) == ("date", Lookup(IdentifyMetadata(output).value, "date").value) &&
              forall k' :: k0 < k' < |body| ==> LineEntry(body[k']).0 != "date";
    forall k | 0 <= k < |body| && LineEntry(body[k]).0 == "date" &&
               (forall k' :: k < k' < |body| ==> LineEntry(body[k']).0 != "date")
      ensures k == k0
    {
    }
  }

  // ---------------------------------------------------------------------
  // Sorting by a key

  predicate SortedBy<T>(s: seq<T>, key: T -> real)
  {
    forall i, j :: 0 <= i < j < |s| ==> key(s[i]) <= key(s[j])
  }

  /** x put before the first element of s with a key not below its own. */
  function InsertBy<T(==)>(x: T, s: seq<T>, key: T -> real): (r: seq<T>)
    ensures multiset(r) == multiset(s) + multiset{x}
    ensures forall i :: 0 <= i < |r| ==> r[i] == x || r[i] in s
  {
    if |s| == 0 || key(x) <= key(s[0]) then [x] + s
    else
      assert s == [s[0]] + s[1..];
      [s[0]] + InsertBy(x, s[1..], key)
  }

  /** Inserting into a sorted sequence keeps it sorted. */
  lemma {:induction false} InsertBySorted<T>(x: T, s: seq<T>, key: T -> real)
    requires SortedBy(s, key)
    ensures SortedBy(InsertBy(x, s, key), key)
  {
    if |s| > 0 && key(x) > key(s[0]) {
      var tail := InsertBy(x, s[1..], key);
      assert SortedBy(s[1..], key) by {
        forall i, j | 0 <= i < j < |s[1..]|
          ensures key(s[1..][i]) <= key(s[1..][j])
        {
          assert s[1..][i] == s[i + 1] && s[1..][j] == s[j + 1];
        }
      }
      InsertBySorted(x, s[1..], key);
      forall i | 0 <= i < |tail|
        ensures key(s[0]) <= key(tail[i])
      {
        if tail[i] != x {
          var k :| 0 <= k < |s[1..]| && s[1..][k] == tail[i];
          assert s[1..][k] == s[k + 1];
        }
      }
    }
  }

  /** Insertion sort: a stable sort by the key. */
  function SortBy<T(==)>(s: seq<T>, key: T -> real): (r: seq<T>)
    ensures multiset(r) == multiset(s) && SortedBy(r, key)
  {
    if |s| == 0 then []
    else
      assert s == [s[0]] + s[1..];
      var rest := SortBy(s[1..], key);
      InsertBySorted(s[0], rest, key);
      InsertBy(s[0], rest, key)
  }

  /** A permutation of a sequence without repetitions has none either. */
  lemma DistinctPermutation<T>(a: seq<T>, b: seq<T>)
    requires multiset(a) == multiset(b) && Distinct(b)
    ensures Distinct(a)
  {
    forall i, j | 0 <= i < j < |a|
      ensures a[i] != a[j]
    {
      CountOfRepeated(a, i, j);
      CountOfDistinct(b, a[i]);
    }
  }

  lemma CountOfRepeated<T>(a: seq<T>, i: nat, j: nat)
    requires i < j < |a|
    ensures a[i] == a[j] ==> multiset(a)[a[i]] >= 2
  {
    assert a == a[..j] + [a[j]] + a[j + 1..];
    assert a[i] == a[..j][i];
    assert multiset(a) == multiset(a[..j]) + multiset{a[j]} + multiset(a[j + 1..]);
  }

  lemma {:induction false} CountOfDistinct<T>(b: seq<T>, x: T)
    requires Distinct(b)
    ensures multiset(b)[x] <= 1
  {
    if |b| > 0 {
      assert b == [b[0]] + b[1..];
      assert Distinct(b[1..]) by {
        forall i, j | 0 <= i < j < |b[1..]|
          ensures b[1..][i] != b[1..][j]
        {
          assert b[1..][i] == b[i + 1] && b[1..][j] == b[j + 1];
        }
      }
      CountOfDistinct(b[1..], x);
      assert b[0] !in b[1..] by {
        forall i | 0 <= i < |b[1..]|
          ensures b[1..][i] != b[0]
        {
          assert b[1..][i] == b[i + 1];
        }
      }
    }
  }

  /** A sequence without repetitions has as many elements as its set. */
  lemma {:induction false} DistinctCard<T>(s: seq<T>)
    requires Distinct(s)
    ensures |set x | x in s| == |s|
  {
    if |s| > 0 {
      var rest := s[1..];
      assert Distinct(rest) by {
        forall i, j | 0 <= i < j < |rest|
          ensures rest[i] != rest[j]
        {
          assert rest[i] == s[i + 1] && rest[j] == s[j + 1];
        }
      }
      DistinctCard(rest);
      assert s[0] !in rest by {
        forall i | 0 <= i < |rest|
          ensures rest[i] != s[0]
        {
          assert rest[i] == s[i + 1];
        }
      }
      assert (set x | x in s) == {s[0]} + (set x | x in rest);
    }
  }

  // ---------------------------------------------------------------------
  // DICOM time frames

  /** What the grouping reads from a DICOM file: the acquisition date and
      time concatenated (e.g. "20210222133538.000") and the position of the
      slice (Image Position (Patient), three coordinates). */
  datatype DicomFile = DicomFile(stamp: string, position: seq<real>)

  datatype DicomError =
    | NoFiles              // nothing to stack
    | BadStamp(stamp: string) // the first 14 characters are not digits
    | SingleFile           // the positions of two files cannot be compared
    | NoSingleVaryingAxis  // the first two files differ in no axis or in several
    | FrameSizeMismatch    // a time frame holds neither one file per slice nor a single file

  /** The files, their frames and the varying axis, once grouped: frame i
      holds the files acquired at stamps[i], in slice order, times[i] is
      the time read from that stamp, and slices is the number of distinct
      positions along the axis. */
  datatype DicomLayout = DicomLayout(axis: nat, stamps: seq<string>, times: seq<int>,
                                     frames: seq<seq<nat>>, slices: nat, series: bool)

  predicate IsDigit(c: char)
  {
    '0' <= c <= '9'
  }

  /** The form "%Y%m%d%H%M%S" is read from: fourteen digits. */
  predicate ValidStamp(s: string)
  {
    |s| >= 14 && forall i :: 0 <= i < 14 ==> IsDigit(s[i])
  }

  /** The number a string of digits writes, most significant digit first. */
  function DigitsValue(s: string): (v: int)
  {
    if |s| == 0 then 0 else DigitsValue(s[..|s| - 1]) * 10 + (s[|s| - 1] as int - '0' as int)
  }

  /** The acquisition time of a stamp as the number YYYYmmddHHMMSS its first
      14 characters write: later times give larger numbers, and the
      characters after the seconds play no part. */
  function StampTime(s: string): int
  {
    DigitsValue(if |s| >= 14 then s[..14] else s)
  }

  function StampKey(): string -> real
  {
    s => StampTime(s) as real
  }

  /** Digit strings of one length with one value are equal: two stamps
      fall on the same time exactly when their first 14 characters agree. */
  lemma {:induction false} DigitsValueInjective(a: string, b: string)
    requires |a| == |b|
    requires forall i :: 0 <= i < |a| ==> IsDigit(a[i]) && IsDigit(b[i])
    requires DigitsValue(a) == DigitsValue(b)
    ensures a == b
  {
    if |a| > 0 {
      var n := |a| - 1;
      var da, db := a[n] as int - '0' as int, b[n] as int - '0' as int;
      assert 0 <= da < 10 && 0 <= db < 10;
      assert DigitsValue(a[..n]) * 10 + da == DigitsValue(b[..n]) * 10 + db;
      assert da == db && DigitsValue(a[..n]) == DigitsValue(b[..n]) by {
        var d := DigitsValue(a[..n]) - DigitsValue(b[..n]);
        assert d * 10 == db - da;
      }
      DigitsValueInjective(a[..n], b[..n]);
      assert a == a[..n] + [a[n]] && b == b[..n] + [b[n]];
    }
  }

  lemma SameTimeSamePrefix(s: string, t: string)
    requires ValidStamp(s) && ValidStamp(t)
    ensures StampTime(s) == StampTime(t) <==> s[..14] == t[..14]
  {
    if StampTime(s) == StampTime(t) {
      DigitsValueInjective(s[..14], t[..14]);
    }
  }

  /** The first stamp, in the given order, that does not start with 14
      digits. */
  function FirstBadStamp(stamps: seq<string>): (r: Option<string>)
    ensures r.None? <==> forall i :: 0 <= i < |stamps| ==> ValidStamp(stamps[i])
    ensures r.Some? ==> r.value in stamps && !ValidStamp(r.value)
  {
    if |stamps| == 0 then None
    else if !ValidStamp(stamps[0]) then Some(stamps[0])
    else FirstBadStamp(stamps[1..])
  }

  /** The axes, below n, in which two positions differ. */
  function DifferingAxes(p: seq<real>, q: seq<real>, n: nat): (r: seq<nat>)
    requires n <= |p| && n <= |q|
    ensures forall a: nat :: a in r <==> a < n && p[a] != q[a]
    ensures forall x, y :: 0 <= x < y < |r| ==> r[x] < r[y]
  {
    if n == 0 then []
    else
      var before := DifferingAxes(p, q, n - 1);
      assert forall x :: 0 <= x < |before| ==> before[x] < n - 1 by {
        forall x | 0 <= x < |before|
          ensures before[x] < n - 1
        {
          assert before[x] in before;
        }
      }
      before + (if p[n - 1] != q[n - 1] then [n - 1] else [])
  }

  /** The files acquired at a stamp, among the first n, in file order. */
  function FilesAt(files: seq<DicomFile>, stamp: string, n: nat): (r: seq<nat>)
    requires n <= |files|
    ensures forall j: nat :: j in r <==> j < n && files[j].stamp == stamp
    ensures forall x, y :: 0 <= x < y < |r| ==> r[x] < r[y]
  {
    if n == 0 then []
    else
      var before := FilesAt(files, stamp, n - 1);
      assert forall x :: 0 <= x < |before| ==> before[x] < n - 1 by {
        forall x | 0 <= x < |before|
          ensures before[x] < n - 1
        {
          assert before[x] in before;
        }
      }
      before + (if files[n - 1].stamp == stamp then [n - 1] else [])
  }

  /** The coordinate of a file's position along an axis. */
  function PositionKey(files: seq<DicomFile>, axis: nat): nat -> real
  {
    (j: nat) => if j < |files| && axis < |files[j].position| then files[j].position[axis] else 0.0
  }

  /** Frames in time order, each with its files in slice order. */
  function Frames(files: seq<DicomFile>, stamps: seq<string>, axis: nat): (frames: seq<seq<nat>>)
    ensures |frames| == |stamps|
  {
    seq(|stamps|, i requires 0 <= i < |stamps| =>
      SortBy(FilesAt(files, stamps[i], |files|), PositionKey(files, axis)))
  }

  /** The number of distinct positions along the axis. */
  function SliceCount(files: seq<DicomFile>, axis: nat): nat
  {
    |set j | 0 <= j < |files| :: PositionKey(files, axis)(j)|
  }

  /** The set of the stamps of the files. */
  function StampSet(files: seq<DicomFile>): set<string>
  {
    set j | 0 <= j < |files| :: files[j].stamp
  }

  /** `int(np.argwhere(np.diff(positions, axis=0)[0] != 0))`: the one axis
      in which the first two positions differ, if there is exactly one. */
  function VaryingAxis(p: seq<real>, q: seq<real>): (r: Option<nat>)
    requires |p| == 3 && |q| == 3
    ensures r.Some? ==> r.value < 3 && forall a :: 0 <= a < 3 ==> (a == r.value <==> p[a] != q[a])
    ensures r.None? ==> (forall a :: 0 <= a < 3 ==> p[a] == q[a]) ||
                        exists a, b :: 0 <= a < b < 3 && p[a] != q[a] && p[b] != q[b]
  {
    var axes := DifferingAxes(p, q, 3);
    if |axes| == 0 then
      assert forall a :: 0 <= a < 3 ==> a !in axes;
      None
    else if |axes| >= 2 then
      assert axes[0] < axes[1] && axes[0] in axes && axes[1] in axes;
      None
    else
      assert axes[0] in axes;
      Some(axes[0])
  }

  /** numpy's broadcasting in `img[..., i] = voxel_data[..., frame]`: the
      assignment succeeds when the frame has one file per slice or a single
      file, which then fills every slice. */
  predicate Broadcasts(frame: seq<nat>, slices: nat)
  {
    |frame| == slices || |frame| == 1
  }

  predicate AllBroadcast(frames: seq<seq<nat>>, slices: nat)
  {
    forall i :: 0 <= i < |frames| ==> Broadcasts(frames[i], slices)
  }

  /** The file stored at slice k of a frame. */
  function SliceFile(frame: seq<nat>, slices: nat, k: nat): (j: nat)
    requires Broadcasts(frame, slices) && k < slices
    ensures j in frame
    ensures |frame| == slices ==> j == frame[k]
    ensures |frame| == 1 ==> j == frame[0]
  {
    if |frame| == 1 then frame[0] else frame[k]
  }

  /** The layout once the stamps and the axis are known to be usable. */
  function Arrange(files: seq<DicomFile>, enumeration: seq<string>, axis: nat): (r: Result<DicomLayout, DicomError>)
    ensures r.Ok? ==> r.value.axis == axis
    ensures r.Ok? ==> r.value.stamps == SortBy(enumeration, StampKey())
    ensures r.Ok? ==> r.value.frames == Frames(files, r.value.stamps, axis)
    ensures r.Ok? ==> r.value.slices == SliceCount(files, axis)
    ensures r.Err? <==> !AllBroadcast(Frames(files, SortBy(enumeration, StampKey()), axis), SliceCount(files, axis))
    ensures r.Ok? ==> |r.value.times| == |r.value.stamps| &&
                      forall i :: 0 <= i < |r.value.stamps| ==> r.value.times[i] == StampTime(r.value.stamps[i])
    ensures r.Ok? ==> r.value.series == (|r.value.stamps| > 1)
    ensures r.Err? ==> r.error == FrameSizeMismatch
  {
    var stamps := SortBy(enumeration, StampKey());
    var frames := Frames(files, stamps, axis);
    var slices := SliceCount(files, axis);
    if !AllBroadcast(frames, slices) then Err(FrameSizeMismatch)
    else
      var times := seq(|stamps|, i requires 0 <= i < |stamps| => StampTime(stamps[i]));
      Ok(DicomLayout(axis, stamps, times, frames, slices, |stamps| > 1))
  }

  /** The grouping of `imread_from_dicom`: the distinct stamps, met in the
      unspecified order `enumeration` in which a Python set yields them, are
      sorted by their time; the varying axis is the one axis in which the
      first two files differ; each frame collects the files of its stamp,
      sorted by their position along that axis, and must hold one file per
      slice or a single file that fills every slice; the result is a series when there is more than one frame. */
  function GroupDicom(files: seq<DicomFile>, enumeration: seq<string>): (r: Result<DicomLayout, DicomError>)
    requires forall j :: 0 <= j < |files| ==> |files[j].position| == 3
    requires Distinct(enumeration) && (set s | s in enumeration) == StampSet(files)
    ensures |files| == 0 ==> r == Err(NoFiles)
    ensures r.Err? && r.error.BadStamp? ==> r.error.stamp in enumeration && !ValidStamp(r.error.stamp)
    ensures r.Ok? ==> |files| >= 2 && (forall i :: 0 <= i < |enumeration| ==> ValidStamp(enumeration[i]))
    ensures r.Ok? ==> VaryingAxis(files[0].position, files[1].position) == Some(r.value.axis)
    ensures r.Ok? ==> r == Arrange(files, enumeration, r.value.axis)
    ensures |files| > 0 && !(forall i :: 0 <= i < |enumeration| ==> ValidStamp(enumeration[i])) ==>
              r.Err? && r.error.BadStamp?
    ensures |files| == 1 && (forall i :: 0 <= i < |enumeration| ==> ValidStamp(enumeration[i])) ==>
              r == Err(SingleFile)
    ensures |files| >= 2 && (forall i :: 0 <= i < |enumeration| ==> ValidStamp(enumeration[i])) &&
              VaryingAxis(files[0].position, files[1].position).None? ==>
              r == Err(NoSingleVaryingAxis)
    ensures r.Ok? <==>
              && |files| >= 2
              && (forall i :: 0 <= i < |enumeration| ==> ValidStamp(enumeration[i]))
              && VaryingAxis(files[0].position, files[1].position).Some?
              && var axis := VaryingAxis(files[0].position, files[1].position).value;
                 AllBroadcast(Frames(files, SortBy(enumeration, StampKey()), axis), SliceCount(files, axis))
  {
    if |files| == 0 then Err(NoFiles)
    else match FirstBadStamp(enumeration)
      case Some(s) => Err(BadStamp(s))
      case None =>
        if |files| == 1 then Err(SingleFile)
        else match VaryingAxis(files[0].position, files[1].position)
          case None => Err(NoSingleVaryingAxis)
          case Some(axis) => Arrange(files, enumeration, axis)
  }

  predicate DicomInput(files: seq<DicomFile>, enumeration: seq<string>)
  {
    && (forall j :: 0 <= j < |files| ==> |files[j].position| == 3)
    && Distinct(enumeration) && (set s | s in enumeration) == StampSet(files)
  }

  /** The frames are the distinct stamps of the files, each once, in
      chronological order of their first 14 characters. */
  lemma DicomTimes(files: seq<DicomFile>, enumeration: seq<string>)
    requires DicomInput(files, enumeration) && GroupDicom(files, enumeration).Ok?
    ensures var l := GroupDicom(files, enumeration).value;
            && |l.times| == |l.stamps| == |l.frames|
            && Distinct(l.stamps) && (set s | s in l.stamps) == StampSet(files)
            && (forall i :: 0 <= i < |l.stamps| ==> l.times[i] == StampTime(l.stamps[i]))
            && (forall i, i' :: 0 <= i < i' < |l.times| ==> l.times[i] <= l.times[i'])
  {
    var l := GroupDicom(files, enumeration).value;
    assert l.stamps == SortBy(enumeration, StampKey());
    DistinctPermutation(l.stamps, enumeration);
    assert forall s :: s in l.stamps <==> s in multiset(l.stamps);
  }

  /** Frame i holds every file acquired at stamps[i] and nothing else, each
      once, in ascending position along the varying axis; it has one file
      per slice or a single one, and every slice of the frame stores a file
      of that stamp. */
  lemma DicomFrames(files: seq<DicomFile>, enumeration: seq<string>, i: nat)
    requires DicomInput(files, enumeration) && GroupDicom(files, enumeration).Ok?
    requires i < |GroupDicom(files, enumeration).value.frames|
    ensures var l := GroupDicom(files, enumeration).value;
            var frame := l.frames[i];
            && i < |l.stamps|
            && (forall j: nat :: j in frame <==> j < |files| && files[j].stamp == l.stamps[i])
            && Distinct(frame)
            && (forall x, y :: 0 <= x < y < |frame| ==>
                  PositionKey(files, l.axis)(frame[x]) <= PositionKey(files, l.axis)(frame[y]))
            && l.slices == SliceCount(files, l.axis)
            && Broadcasts(frame, l.slices)
            && (forall k :: 0 <= k < l.slices ==>
                  var j := SliceFile(frame, l.slices, k);
                  j < |files| && files[j].stamp == l.stamps[i])
  {
    var l := GroupDicom(files, enumeration).value;
    var at := FilesAt(files, l.stamps[i], |files|);
    var frame := l.frames[i];
    assert frame == SortBy(at, PositionKey(files, l.axis));
    assert forall j :: j in frame <==> j in multiset(at);
    DistinctPermutation(frame, at);
  }

  /** The result is a series exactly when the files carry more than one
      distinct stamp. */
  lemma DicomSeries(files: seq<DicomFile>, enumeration: seq<string>)
    requires DicomInput(files, enumeration) && GroupDicom(files, enumeration).Ok?
    ensures GroupDicom(files, enumeration).value.series <==> |StampSet(files)| > 1
  {
    var l := GroupDicom(files, enumeration).value;
    DistinctCard(enumeration);
    assert |l.stamps| == |multiset(enumeration)|;
  }

  /** A time frame with a single file is accepted and fills every slice:
      two files at stamp a in two positions and one file at the later stamp
      b give a two-frame series whose second frame is that one file. */
  lemma OneFileFrameBroadcasts(a: string, b: string, x: real, y: real, z0: real, z1: real)
    requires ValidStamp(a) && ValidStamp(b) && StampTime(a) < StampTime(b)
    requires z0 < z1
    ensures var files := [DicomFile(a, [x, y, z0]), DicomFile(a, [x, y, z1]), DicomFile(b, [x, y, z0])];
            && DicomInput(files, [a, b])
            && var r := GroupDicom(files, [a, b]);
            && r.Ok? && |r.value.frames| == 2 && r.value.frames[0] == [0, 1] && r.value.frames[1] == [2]
            && r.value.slices == 2 && r.value.series
            && SliceFile(r.value.frames[1], 2, 0) == 2 && SliceFile(r.value.frames[1], 2, 1) == 2
  {
    var files := [DicomFile(a, [x, y, z0]), DicomFile(a, [x, y, z1]), DicomFile(b, [x, y, z0])];
    StampSetOfThree(files);
    assert DicomInput(files, [a, b]);
    GroupDicomOfThree(files, a, b);
    SortedTwo(a, b, StampKey());
    FilesAtOfThree(files, a, b, x, y, z0, z1);
    assert PositionKey(files, 2)(0) == z0 && PositionKey(files, 2)(1) == z1;
    FramesOfThree(files, a, b);
    SliceCountOfThree(files, z0, z1);
    ArrangeOfThree(files, a, b);
  }

  /** Two valid stamps and three files whose first two differ only along
      the last axis reach the arrangement along that axis. */
  lemma GroupDicomOfThree(files: seq<DicomFile>, a: string, b: string)
    requires ValidStamp(a) && ValidStamp(b)
    requires |files| == 3 && DicomInput(files, [a, b])
    requires files[0].position[0] == files[1].position[0] && files[0].position[1] == files[1].position[1]
    requires files[0].position[2] != files[1].position[2]
    ensures GroupDicom(files, [a, b]) == Arrange(files, [a, b], 2)
  {
    assert VaryingAxis(files[0].position, files[1].position) == Some(2);
    assert FirstBadStamp([a, b]) == None;
  }

  /** With a full first frame and a one-file second frame over two
      slices, the arrangement succeeds. */
  lemma ArrangeOfThree(files: seq<DicomFile>, a: string, b: string)
    requires SortBy([a, b], StampKey()) == [a, b]
    requires var frames := Frames(files, [a, b], 2); |frames| == 2 && frames[0] == [0, 1] && frames[1] == [2]
    requires SliceCount(files, 2) == 2
    ensures var r := Arrange(files, [a, b], 2);
            && r.Ok? && |r.value.frames| == 2 && r.value.frames[0] == [0, 1] && r.value.frames[1] == [2]
            && r.value.slices == 2 && r.value.series
  {
    TwoFramesBroadcast(Frames(files, [a, b], 2));
  }

  lemma TwoFramesBroadcast(frames: seq<seq<nat>>)
    requires |frames| == 2 && frames[0] == [0, 1] && frames[1] == [2]
    ensures AllBroadcast(frames, 2)
  {
    assert Broadcasts(frames[0], 2) && Broadcasts(frames[1], 2);
  }

  lemma StampSetOfThree(files: seq<DicomFile>)
    requires |files| == 3
    ensures StampSet(files) == {files[0].stamp, files[1].stamp, files[2].stamp}
  {
    forall s | s in StampSet(files)
      ensures s in {files[0].stamp, files[1].stamp, files[2].stamp}
    {
      var j :| 0 <= j < 3 && files[j].stamp == s;
    }
  }

  lemma PositionsOfThree(files: seq<DicomFile>, axis: nat)
    requires |files| == 3
    ensures var key := PositionKey(files, axis);
            (set j | 0 <= j < |files| :: key(j)) == {key(0), key(1), key(2)}
  {
    var key := PositionKey(files, axis);
    var positions := set j | 0 <= j < |files| :: key(j);
    forall v | v in positions
      ensures v in {key(0), key(1), key(2)}
    {
      var j :| 0 <= j < 3 && key(j) == v;
    }
  }

  /** Two elements already in key order stay in that order. */
  lemma SortedTwo<T>(u: T, v: T, key: T -> real)
    requires key(u) <= key(v)
    ensures SortBy([u, v], key) == [u, v]
  {
    assert [u, v][1..] == [v];
    assert SortBy([v], key) == [v];
  }

  lemma SortedOne<T>(u: T, key: T -> real)
    ensures SortBy([u], key) == [u]
  {
  }

  lemma FramesOfThree(files: seq<DicomFile>, a: string, b: string)
    requires FilesAt(files, a, |files|) == [0, 1] && FilesAt(files, b, |files|) == [2]
    requires PositionKey(files, 2)(0) <= PositionKey(files, 2)(1)
    ensures var frames := Frames(files, [a, b], 2); |frames| == 2 && frames[0] == [0, 1] && frames[1] == [2]
  {
    SortedTwo<nat>(0, 1, PositionKey(files, 2));
    FrameIs(files, [a, b], 0, [0, 1]);
    SortedOne<nat>(2, PositionKey(files, 2));
    FrameIs(files, [a, b], 1, [2]);
  }

  lemma FrameIs(files: seq<DicomFile>, stamps: seq<string>, i: nat, frame: seq<nat>)
    requires i < |stamps| && FilesAt(files, stamps[i], |files|) == frame
    requires SortBy(frame, PositionKey(files, 2)) == frame
    ensures Frames(files, stamps, 2)[i] == frame
  {
  }

  lemma FilesAtOfThree(files: seq<DicomFile>, a: string, b: string, x: real, y: real, z0: real, z1: real)
    requires files == [DicomFile(a, [x, y, z0]), DicomFile(a, [x, y, z1]), DicomFile(b, [x, y, z0])]
    requires a != b
    ensures FilesAt(files, a, 3) == [0, 1] && FilesAt(files, b, 3) == [2]
  {
    var first, second: seq<nat> := [0, 1], [2];
    assert FilesAt(files, a, 1) == [0];
    assert FilesAt(files, a, 2) == first;
    assert FilesAt(files, a, 3) == first;
    assert FilesAt(files, b, 1) == [];
    assert FilesAt(files, b, 2) == [];
    assert FilesAt(files, b, 3) == second;
  }

  lemma SliceCountOfThree(files: seq<DicomFile>, z0: real, z1: real)
    requires |files| == 3 && z0 != z1
    requires |files[0].position| == |files[1].position| == |files[2].position| == 3
    requires files[0].position[2] == z0 && files[1].position[2] == z1 && files[2].position[2] == z0
    ensures SliceCount(files, 2) == 2
  {
    PositionsOfThree(files, 2);
    assert {z0, z1, z0} == {z0, z1};
  }
}

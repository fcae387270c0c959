/** The upload handler's file-name gate `allowed_file`. */
module Upload {
  import opened Text

  /** The extensions `ALLOWED_EXTENSIONS` admits. */
  const ALLOWED_EXTENSIONS: set<string> := {"xlsx", "xls"}

  /** Position `i` holds the last '.' of `name`. */
  predicate LastDot(name: string, i: int)
  {
    0 <= i < |name| && name[i] == '.' && forall k :: i < k < |name| ==> name[k] != '.'
  }

  /** `'.' in name and name.rsplit('.', 1)[1].lower() in ALLOWED_EXTENSIONS`:
      the name has a dot, and the text after its last dot, lower-cased, is an
      allowed extension. */
  function AllowedFile(name: string): (ok: bool)
    ensures ok <==> exists i :: LastDot(name, i) && Lower(name[i + 1..]) in ALLOWED_EXTENSIONS
  {
    var i := LastIndexOf(name, '.');
    if i < 0 then
      assert forall j :: !LastDot(name, j);
      false
    else
      assert LastDot(name, i);
      assert forall j :: LastDot(name, j) ==> j == i;
      Lower(name[i + 1..]) in ALLOWED_EXTENSIONS
  }

  /** A name without a dot is refused, whatever it spells. */
  lemma NoDotRefused(name: string)
    requires '.' !in name
    ensures !AllowedFile(name)
  {
  }

  /** Only the text after the last dot decides, and its case does not:
      `stem.ext`, with no dot in `ext`, is allowed exactly when `ext`
      lower-cased is an allowed extension, whatever the stem. */
  lemma ExtensionDecides(stem: string, ext: string)
    requires '.' !in ext
    ensures AllowedFile(stem + "." + ext) <==> Lower(ext) in ALLOWED_EXTENSIONS
  {
    var name := stem + "." + ext;
    assert LastDot(name, |stem|) && name[|stem| + 1..] == ext;
  }

  /** An upper-case allowed extension is accepted; a second dot in the stem
      does not matter. */
  lemma AcceptedExamples()
    ensures AllowedFile("report.XLSX")
    ensures AllowedFile("old.data.xls")
  {
    assert "report.XLSX" == "report" + "." + "XLSX";
    ExtensionDecides("report", "XLSX");
    assert Lower("XLSX") == "xlsx";
    assert "old.data.xls" == "old.data" + "." + "xls";
    ExtensionDecides("old.data", "xls");
    assert Lower("xls") == "xls";
  }

  /** An allowed extension that is not the last one, or a bare extension
      without a dot, is refused. */
  lemma RefusedExamples()
    ensures !AllowedFile("report.xlsx.csv")
    ensures !AllowedFile("xlsx")
  {
    assert "report.xlsx.csv" == "report.xlsx" + "." + "csv";
    ExtensionDecides("report.xlsx", "csv");
    var csv := Lower("csv");
    assert csv == "csv";
    assert csv[0] == 'c';
    assert csv !in ALLOWED_EXTENSIONS;
    NoDotRefused("xlsx");
  }
}

/**
 * The conversion-engine invocation both conversion endpoints build
 * (pdf-printer/app/main.py:242-250 and :282-290) and the engine seen as an oracle.
 */
module Conversion {
  import opened Wrappers
  import opened Naming

  type Content = seq<bv8>

  /** What one run of the engine reports: its exit code, its captured stderr and, on success, the PDF it wrote. */
  datatype EngineRun = EngineRun(exitCode: int, stderr: string, pdf: Content)

  /** An oracle standing for `subprocess.run(argv, capture_output=True, text=True)`. */
  type Engine = seq<string> -> EngineRun

  const FilterPrefix: string := "pdf:calc_pdf_Export:"

  /** `if lo_options:`: the form field is present and not empty (None and "" are falsy). */
  function OptionsGiven(lo: Option<string>): (given: bool)
    ensures !given <==> lo == None || lo == Some("")
  {
    lo.Some? && lo.value != ""
  }

  /** The options the engine reads back from a `--convert-to` target. */
  function TargetOptions(target: string): Option<string>
  {
    if |target| >= |FilterPrefix| && target[..|FilterPrefix|] == FilterPrefix
    then Some(target[|FilterPrefix|..])
    else None
  }

  /** The `--convert-to` target: plain "pdf", or the Calc PDF export filter carrying the options. */
  function Target(lo: Option<string>): (target: string)
    ensures target == "pdf" <==> !OptionsGiven(lo)
    ensures TargetOptions(target) == if OptionsGiven(lo) then lo else None
  {
    if OptionsGiven(lo) then
      var t := FilterPrefix + lo.value;
      assert t[..|FilterPrefix|] == FilterPrefix && t[|FilterPrefix|..] == lo.value;
      t
    else "pdf"
  }

  /** The argv given to the engine for `inputPath`, writing into the staging directory. */
  function Command(inputPath: string, lo: Option<string>): (argv: seq<string>)
    ensures |argv| == 7 && argv[0] == "libreoffice" && argv[1] == "--headless"
    ensures argv[2] == "--convert-to"
    ensures !OptionsGiven(lo) ==> argv[3] == "pdf"
    ensures OptionsGiven(lo) ==> argv[3] == FilterPrefix + lo.value && TargetOptions(argv[3]) == lo
    ensures argv[4] == inputPath && argv[5] == "--outdir" && argv[6] == TmpDir
  {
    ["libreoffice", "--headless", "--convert-to", Target(lo), inputPath, "--outdir", TmpDir]
  }

  /** `str(RuntimeError(f"LibreOffice failed: {stderr}"))`: the stderr text is carried verbatim. */
  function EngineFailure(stderr: string): (msg: string)
    ensures |msg| > |stderr| && msg[|msg| - |stderr|..] == stderr
  {
    "LibreOffice failed: " + stderr
  }
}

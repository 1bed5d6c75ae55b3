/**
 * File names as `pathlib` splits them (stem and suffix) and the two places the
 * translator derives an output name: `main` (`stem + "_ar" + suffix.lower()`)
 * and `process_single_file` (`stem + "_ar" + (".vtt" or ".srt")`).
 */
module FileNames {

  datatype FileName = FileName(stem: string, suffix: string)

  const ArTag: string := "_ar"

  /** The full name, `stem + suffix`. */
  function Name(f: FileName): string
  {
    f.stem + f.suffix
  }

  /** `str.endswith`: `s` is some string followed by `t`. */
  predicate EndsWith(s: string, t: string)
    ensures EndsWith(s, t) <==> exists p :: s == p + t
  {
    assert forall p | s == p + t :: |t| <= |s| && s[|s| - |t|..] == t;
    assert |t| <= |s| ==> s == s[..|s| - |t|] + s[|s| - |t|..];
    |t| <= |s| && s[|s| - |t|..] == t
  }

  /**
   * A file whose stem ends in `_ar`: a translation written by an earlier run.
   * Appending `_ar` to any stem gives such a file.
   */
  predicate IsArOutput(f: FileName)
    ensures IsArOutput(f) <==> exists p :: f.stem == p + ArTag
  {
    EndsWith(f.stem, ArTag)
  }

  /** The form of a `pathlib` suffix: empty, or starting with a dot. */
  predicate IsPathSuffix(s: string)
  {
    s == [] || s[0] == '.'
  }

  /** `str.lower` on the ASCII letters (file suffixes). */
  function Lower(s: string): (r: string)
    ensures |r| == |s|
    ensures forall i :: 0 <= i < |s| ==> ('A' <= s[i] <= 'Z' ==> r[i] as int == s[i] as int + 32)
    ensures forall i :: 0 <= i < |s| ==> (!('A' <= s[i] <= 'Z') ==> r[i] == s[i])
  {
    seq(|s|, i requires 0 <= i < |s| => if 'A' <= s[i] <= 'Z' then (s[i] as int + 32) as char else s[i])
  }

  /**
   * `main`'s test `file.suffix.lower() == '.vtt'`: the suffix is a dot then
   * `vtt` in any mix of cases.
   */
  predicate IsVtt(f: FileName)
    ensures IsVtt(f) <==>
      |f.suffix| == 4 && f.suffix[0] == '.' &&
      f.suffix[1] in "vV" && f.suffix[2] in "tT" && f.suffix[3] in "tT"
  {
    Lower(f.suffix) == ".vtt"
  }

  /**
   * The name `main` looks for: the stem, then `_ar`, then the lowered suffix.
   * It is never the input's own name, and its stem ends in `_ar`.
   */
  function ExpectedOutputName(f: FileName): (g: FileName)
    ensures IsArOutput(g) && |Name(g)| == |Name(f)| + |ArTag|
    ensures |f.stem| < |g.stem| && g.stem[..|f.stem|] == f.stem
    ensures g != f && Name(g) != Name(f)
  {
    FileName(f.stem + ArTag, Lower(f.suffix))
  }

  /**
   * The name `process_single_file` writes to: the `_ar` stem with `.vtt` or
   * `.srt` by format. Its stem ends in `_ar`, and for an input whose suffix
   * has the `pathlib` form its full name is never the input's own name.
   */
  function SavedOutputName(f: FileName, isVtt: bool): (g: FileName)
    ensures IsArOutput(g) && |f.stem| < |g.stem| && g.stem[..|f.stem|] == f.stem
    ensures g.suffix in {".vtt", ".srt"}
    ensures g.stem != f.stem && g != f
    ensures IsPathSuffix(f.suffix) ==> Name(g) != Name(f)
  {
    var g := FileName(f.stem + ArTag, if isVtt then ".vtt" else ".srt");
    assert Name(g)[|f.stem|] == '_';
    assert |f.suffix| > 0 ==> Name(f)[|f.stem|] == f.suffix[0];
    g
  }

  /**
   * For the files `main` collects (suffix `.vtt` or `.srt` in any case) the
   * name written is the name looked for on the next run, and it is never the
   * input's own name.
   */
  lemma OutputNamesAgree(f: FileName)
    requires Lower(f.suffix) == ".vtt" || Lower(f.suffix) == ".srt"
    ensures SavedOutputName(f, IsVtt(f)) == ExpectedOutputName(f)
    ensures Name(SavedOutputName(f, IsVtt(f))) != Name(f)
  {
    assert IsPathSuffix(f.suffix);
  }
}

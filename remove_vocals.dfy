/**
 * Where the vocal remover looks for the separated instrumental (remove_vocals.py). Whether a
 * file exists is not decided here: the set of existing paths is an input. Running the separator
 * and the converter is not part of this model.
 */
module RemoveVocals {
  import opened Wrappers

  /** The model main asks the separator to run. */
  const DefaultModel: string := "mdx_extra"

  /** The models main falls back to, in order, when the default's output is not found. */
  const FallbackModels: seq<string> := ["htdemucs", "mdx_extra_q"]

  /** The stem file preferred, and the one accepted instead. */
  const NoVocalsFile: string := "no_vocals.wav"
  const OtherFile: string := "other.wav"

  /** os.path.basename: everything after the last '/'. */
  function Basename(path: string): string
    decreases |path|
  {
    if path == [] || path[|path| - 1] == '/' then [] else Basename(path[..|path| - 1]) + [path[|path| - 1]]
  }

  /**
   * The base name is the part of the path after its last '/': a suffix of the path, free of '/',
   * and preceded by a '/' unless it is the whole path.
   */
  lemma {:induction false} BasenameIsLastComponent(path: string)
    ensures var b := Basename(path);
      && |b| <= |path| && b == path[|path| - |b|..]
      && (forall k :: 0 <= k < |b| ==> b[k] != '/')
      && (|b| < |path| ==> path[|path| - |b| - 1] == '/')
    decreases |path|
  {
    if path != [] && path[|path| - 1] != '/' {
      var init := path[..|path| - 1];
      BasenameIsLastComponent(init);
      var b := Basename(init);
      assert init[|init| - |b|..] == path[|path| - 1 - |b|..|path| - 1];
    }
  }

  /** Whether every character of s is a '.'. */
  predicate AllDots(s: string)
  {
    forall k :: 0 <= k < |s| ==> s[k] == '.'
  }

  /** Position of the last '.' in s, if any. */
  function LastDot(s: string): Option<nat>
    decreases |s|
  {
    if s == [] then None
    else if s[|s| - 1] == '.' then Some(|s| - 1)
    else LastDot(s[..|s| - 1])
  }

  /** LastDot finds a '.' with none after it, or reports that there is none. */
  lemma {:induction false} LastDotIsLast(s: string)
    ensures var r := LastDot(s);
      && (r.Some? ==> r.value < |s| && s[r.value] == '.')
      && forall k :: (if r.Some? then r.value + 1 else 0) <= k < |s| ==> s[k] != '.'
    decreases |s|
  {
    if s != [] && s[|s| - 1] != '.' {
      LastDotIsLast(s[..|s| - 1]);
    }
  }

  /**
   * os.path.splitext(name)[0] for a name without '/': the name up to its last '.', unless only
   * dots precede that '.' (a leading-dot name such as ".wav" has no extension).
   */
  function StripExtension(name: string): string
  {
    match LastDot(name)
    case None => name
    case Some(i) => if i <= |name| && !AllDots(name[..i]) then name[..i] else name
  }

  /**
   * The root is the name itself or the name cut just before its last '.'; it is cut only when
   * something other than dots comes before that '.', and kept whole only when no '.' follows a
   * character other than '.'.
   */
  lemma StripExtensionCutsAtLastDot(name: string)
    ensures var root := StripExtension(name);
      && root <= name
      && (root != name ==>
            && name[|root|] == '.'
            && (forall k :: |root| < k < |name| ==> name[k] != '.')
            && !AllDots(root))
      && (root == name ==>
            forall j, k :: 0 <= j < k < |name| && name[j] != '.' ==> name[k] != '.')
  {
    LastDotIsLast(name);
    var r := LastDot(name);
    if StripExtension(name) == name && r.Some? {
      assert AllDots(name[..r.value]);
      assert forall j :: 0 <= j < r.value ==> name[j] == name[..r.value][j] == '.';
    }
  }

  /** os.path.join of two parts: an absolute second part replaces the first. */
  function Join(a: string, b: string): string
  {
    if |b| > 0 && b[0] == '/' then b
    else if a == [] || a[|a| - 1] == '/' then a + b
    else a + "/" + b
  }

  /** The directory the separator writes into: "htdemucs" for that model, "mdx_extra" for any other. */
  function ModelDir(model: string): (dir: string)
    ensures dir == "htdemucs" <==> model == "htdemucs"
    ensures dir == "htdemucs" || dir == "mdx_extra"
  {
    if model == "htdemucs" then "htdemucs" else "mdx_extra"
  }

  /** os.path.join(first, *rest): the parts joined left to right. */
  function JoinAll(first: string, rest: seq<string>): string
    decreases |rest|
  {
    if rest == [] then first else JoinAll(Join(first, rest[0]), rest[1..])
  }

  /** os.path.join(output_dir, model_dir, base_name, stem). */
  function StemPath(outputDir: string, inputFile: string, model: string, stem: string): string
  {
    JoinAll(outputDir, [ModelDir(model), StripExtension(Basename(inputFile)), stem])
  }

  /** Joining a relative part onto a non-empty path ends the result with '/' and that part. */
  lemma JoinRelative(a: string, b: string)
    requires a != [] && (b == [] || b[0] != '/')
    ensures var p := Join(a, b);
      |p| > |b| && p[|p| - |b| - 1..] == "/" + b
  {
  }

  /**
   * Every probed path is "<...>/<model dir>/<base name>/<stem>": it ends with '/' and the stem
   * file name, whatever the output directory and input file are.
   */
  lemma StemPathEndsWithStem(outputDir: string, inputFile: string, model: string, stem: string)
    requires stem != [] && stem[0] != '/'
    ensures var p := StemPath(outputDir, inputFile, model, stem);
      |p| > |stem| && p[|p| - |stem| - 1..] == "/" + stem
  {
    var withBase := Join(Join(outputDir, ModelDir(model)), StripExtension(Basename(inputFile)));
    StemPathUnfolds(outputDir, inputFile, model, stem);
    JoinRelative(withBase, stem);
  }

  /** The three joins of StemPath, one after the other, leave a non-empty path before the stem. */
  lemma StemPathUnfolds(outputDir: string, inputFile: string, model: string, stem: string)
    ensures var withBase := Join(Join(outputDir, ModelDir(model)), StripExtension(Basename(inputFile)));
      && withBase != []
      && StemPath(outputDir, inputFile, model, stem) == Join(withBase, stem)
  {
    var dir := ModelDir(model);
    var base := StripExtension(Basename(inputFile));
    var withDir := Join(outputDir, dir);
    assert withDir != [];
    var withBase := Join(withDir, base);
    BaseNameRelative(inputFile);
    assert withBase != [];
    assert [dir, base, stem][1..] == [base, stem];
    assert [base, stem][1..] == [stem];
    assert JoinAll(outputDir, [dir, base, stem]) == JoinAll(withDir, [base, stem]);
    assert JoinAll(withDir, [base, stem]) == JoinAll(withBase, [stem]);
  }

  /** The input's base name without extension never starts with '/', so joining it is relative. */
  lemma BaseNameRelative(inputFile: string)
    ensures var base := StripExtension(Basename(inputFile));
      base == [] || base[0] != '/'
  {
    var base := StripExtension(Basename(inputFile));
    BasenameIsLastComponent(inputFile);
    StripExtensionCutsAtLastDot(Basename(inputFile));
    if base != [] {
      assert base[0] == Basename(inputFile)[0];
    }
  }

  /**
   * get_instrumental_path: the no-vocals stem when it exists, otherwise the "other" stem when it
   * exists, otherwise None.
   */
  function InstrumentalPath(outputDir: string, inputFile: string, model: string, existing: set<string>)
    : (r: Option<string>)
    ensures r.Some? ==> r.value in existing
    ensures r.None? <==>
      StemPath(outputDir, inputFile, model, NoVocalsFile) !in existing
      && StemPath(outputDir, inputFile, model, OtherFile) !in existing
    ensures StemPath(outputDir, inputFile, model, NoVocalsFile) in existing ==>
      r == Some(StemPath(outputDir, inputFile, model, NoVocalsFile))
    ensures r.Some? ==>
      r.value == StemPath(outputDir, inputFile, model, NoVocalsFile)
      || r.value == StemPath(outputDir, inputFile, model, OtherFile)
  {
    var preferred := StemPath(outputDir, inputFile, model, NoVocalsFile);
    var alternative := StemPath(outputDir, inputFile, model, OtherFile);
    if preferred in existing then Some(preferred)
    else if alternative in existing then Some(alternative)
    else None
  }

  /** Asking for "mdx_extra_q" probes exactly the paths probed for "mdx_extra". */
  lemma QuantizedModelSharesDir(outputDir: string, inputFile: string, existing: set<string>)
    ensures InstrumentalPath(outputDir, inputFile, "mdx_extra_q", existing)
         == InstrumentalPath(outputDir, inputFile, DefaultModel, existing)
  {
    assert ModelDir("mdx_extra_q") == ModelDir(DefaultModel);
  }

  /** The result of trying `models` in order: the first path found, or None. */
  function FirstFound(outputDir: string, inputFile: string, models: seq<string>, existing: set<string>)
    : (r: Option<string>)
    decreases |models|
  {
    if models == [] then None
    else
      var found := InstrumentalPath(outputDir, inputFile, models[0], existing);
      if found.Some? then found else FirstFound(outputDir, inputFile, models[1..], existing)
  }

  /**
   * FirstFound finds an existing path, the one of the first model that finds anything, and
   * finds none only when no model finds one.
   */
  lemma {:induction false} FirstFoundMeaning(outputDir: string, inputFile: string, models: seq<string>, existing: set<string>)
    ensures var r := FirstFound(outputDir, inputFile, models, existing);
      && (r.Some? ==> r.value in existing)
      && (r.None? <==> forall i :: 0 <= i < |models| ==> InstrumentalPath(outputDir, inputFile, models[i], existing).None?)
      && (r.Some? ==> exists i :: 0 <= i < |models| && r == InstrumentalPath(outputDir, inputFile, models[i], existing)
                         && forall j :: 0 <= j < i ==> InstrumentalPath(outputDir, inputFile, models[j], existing).None?)
    decreases |models|
  {
    if models != [] {
      FirstFoundMeaning(outputDir, inputFile, models[1..], existing);
      assert forall i :: 1 <= i < |models| ==> models[i] == models[1..][i - 1];
      var r := FirstFound(outputDir, inputFile, models, existing);
      if r.Some? && InstrumentalPath(outputDir, inputFile, models[0], existing).None? {
        FirstHitShift(outputDir, inputFile, models, existing, r);
      }
    }
  }

  /**
   * A first hit among models[1..] after a miss on models[0] is a first hit among models:
   * the index moves up by one and the miss at 0 joins the earlier misses.
   */
  lemma FirstHitShift(outputDir: string, inputFile: string, models: seq<string>, existing: set<string>, r: Option<string>)
    requires |models| > 0 && InstrumentalPath(outputDir, inputFile, models[0], existing).None?
    requires exists i :: 0 <= i < |models[1..]| && r == InstrumentalPath(outputDir, inputFile, models[1..][i], existing)
               && forall j :: 0 <= j < i ==> InstrumentalPath(outputDir, inputFile, models[1..][j], existing).None?
    ensures exists i :: 0 <= i < |models| && r == InstrumentalPath(outputDir, inputFile, models[i], existing)
              && forall j :: 0 <= j < i ==> InstrumentalPath(outputDir, inputFile, models[j], existing).None?
  {
    var i :| 0 <= i < |models[1..]| && r == InstrumentalPath(outputDir, inputFile, models[1..][i], existing)
      && forall j :: 0 <= j < i ==> InstrumentalPath(outputDir, inputFile, models[1..][j], existing).None?;
    assert models[i + 1] == models[1..][i];
    forall j | 0 <= j < i + 1
      ensures InstrumentalPath(outputDir, inputFile, models[j], existing).None?
    {
      if j > 0 {
        assert models[j] == models[1..][j - 1];
      }
    }
  }

  /**
   * The lookup in main: the default model's output first, then each fallback model in order,
   * stopping at the first hit. None means main stops before converting anything.
   */
  method FindInstrumental(outputDir: string, inputFile: string, existing: set<string>)
    returns (path: Option<string>)
    ensures path == FirstFound(outputDir, inputFile, [DefaultModel] + FallbackModels, existing)
  {
    path := InstrumentalPath(outputDir, inputFile, DefaultModel, existing);
    if path.None? {
      var i := 0;
      while i < |FallbackModels|
        invariant 0 <= i <= |FallbackModels|
        invariant path.None?
        invariant FirstFound(outputDir, inputFile, FallbackModels[i..], existing)
               == FirstFound(outputDir, inputFile, FallbackModels, existing)
      {
        path := InstrumentalPath(outputDir, inputFile, FallbackModels[i], existing);
        if path.Some? {
          break;
        }
        i := i + 1;
      }
    }
    assert ([DefaultModel] + FallbackModels)[1..] == FallbackModels;
  }

  /**
   * Because "mdx_extra_q" shares the default's directory, the last fallback never finds anything
   * the first attempt missed: the search amounts to the default model, then "htdemucs".
   */
  lemma LastFallbackRedundant(outputDir: string, inputFile: string, existing: set<string>)
    ensures FirstFound(outputDir, inputFile, [DefaultModel] + FallbackModels, existing)
         == FirstFound(outputDir, inputFile, [DefaultModel, "htdemucs"], existing)
  {
    var all := [DefaultModel] + FallbackModels;
    assert all[0] == DefaultModel && all[1..] == FallbackModels;
    assert [DefaultModel, "htdemucs"][1..] == ["htdemucs"];
    if InstrumentalPath(outputDir, inputFile, DefaultModel, existing).None? {
      FallbacksAfterMiss(outputDir, inputFile, existing);
    }
  }

  /** Once the default model found nothing, "mdx_extra_q" finds nothing either. */
  lemma FallbacksAfterMiss(outputDir: string, inputFile: string, existing: set<string>)
    requires InstrumentalPath(outputDir, inputFile, DefaultModel, existing).None?
    ensures FirstFound(outputDir, inputFile, FallbackModels, existing)
         == FirstFound(outputDir, inputFile, ["htdemucs"], existing)
  {
    QuantizedModelSharesDir(outputDir, inputFile, existing);
    assert FallbackModels[0] == "htdemucs" && FallbackModels[1..] == ["mdx_extra_q"];
    assert ["mdx_extra_q"][1..] == [] && ["htdemucs"][1..] == [];
  }
}

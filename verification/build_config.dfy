/**
 * The two naming callbacks of the production build (vite.config.js):
 * `manualChunks`, which puts a module id into a named chunk or leaves it to
 * the bundler, and `assetFileNames`, which picks an output path template for
 * an emitted asset. Both are first-match if-chains over string tests.
 */
module BuildConfig {
  import opened Wrappers
  import opened Strings

  const ImageExtensions: seq<string> := ["png", "jpg", "jpeg", "svg", "gif", "tiff", "bmp", "ico"]
  const MediaExtensions: seq<string> := ["mp4", "webm", "ogg", "mp3", "wav", "flac", "aac"]

  /** Every output path template is `assets/`, a directory, then this file pattern. */
  const FilePattern := "[name]-[hash][extname]"
  const CssTemplate := "assets/" + "css/" + FilePattern
  const ImageTemplate := "assets/" + "images/" + FilePattern
  const MediaTemplate := "assets/" + "media/" + FilePattern
  const DefaultTemplate := "assets/" + FilePattern

  /**
   * `manualChunks(id)`: the chunk a module goes into, or None when the
   * callback returns `undefined` and the bundler decides.
   */
  function ManualChunks(id: string): (r: Option<string>)
    ensures r.Some? <==>
      Contains(id, "node_modules") || Contains(id, "components/Results")
      || Contains(id, "components/Services") || Contains(id, "components/Comparison")
  {
    if Contains(id, "node_modules") then
      if Contains(id, "react") || Contains(id, "react-dom") then Some("react-core")
      else if Contains(id, "framer-motion") then Some("animations")
      else if Contains(id, "@react-three") then Some("three-js")
      else if Contains(id, "react-router") then Some("routing")
      else Some("vendor")
    else if Contains(id, "components/Results") then Some("results")
    else if Contains(id, "components/Services") then Some("services")
    else if Contains(id, "components/Comparison") then Some("comparison")
    else None
  }

  /** Application code outside `node_modules` is split only for the three large sections. */
  lemma AppChunks(id: string)
    requires !Contains(id, "node_modules")
    ensures ManualChunks(id) == Some("results") <==> Contains(id, "components/Results")
    ensures ManualChunks(id) == Some("services") <==>
      !Contains(id, "components/Results") && Contains(id, "components/Services")
    ensures ManualChunks(id) == Some("comparison") <==>
      !Contains(id, "components/Results") && !Contains(id, "components/Services")
      && Contains(id, "components/Comparison")
    ensures ManualChunks(id).Some? ==> ManualChunks(id).value in {"results", "services", "comparison"}
  {
  }

  /**
   * Every dependency gets a chunk. Since `@react-three` and `react-router`
   * both contain `react`, the first test already sends them to `react-core`:
   * the `three-js` and `routing` chunks are never produced, and `vendor`
   * takes every dependency without `react` or `framer-motion` in its id.
   */
  lemma DependencyChunks(id: string)
    requires Contains(id, "node_modules")
    ensures ManualChunks(id).Some?
    ensures ManualChunks(id) == Some("react-core") <==> Contains(id, "react")
    ensures ManualChunks(id) == Some("animations") <==>
      !Contains(id, "react") && Contains(id, "framer-motion")
    ensures ManualChunks(id) == Some("vendor") <==>
      !Contains(id, "react") && !Contains(id, "framer-motion")
    ensures ManualChunks(id).value in {"react-core", "animations", "vendor"}
  {
    if Contains(id, "react-dom") {
      assert OccursAt("react-dom", "react", 0);
      ContainsTransitive(id, "react-dom", "react");
    }
    if Contains(id, "@react-three") {
      assert OccursAt("@react-three", "react", 1);
      ContainsTransitive(id, "@react-three", "react");
    }
    if Contains(id, "react-router") {
      assert OccursAt("react-router", "react", 0);
      ContainsTransitive(id, "react-router", "react");
    }
  }

  /** No module id at all is put into the `three-js` or `routing` chunk. */
  lemma UnreachableChunks(id: string)
    ensures ManualChunks(id) != Some("three-js")
    ensures ManualChunks(id) != Some("routing")
  {
    if Contains(id, "node_modules") {
      DependencyChunks(id);
    }
  }

  /**
   * `manualChunks` with the two specific dependency tests moved ahead of the
   * `react` test, so that the `three-js` and `routing` chunks it names can be
   * produced.
   */
  function ManualChunksCorrected(id: string): (r: Option<string>)
    ensures r.Some? <==> ManualChunks(id).Some?
  {
    if Contains(id, "node_modules") then
      if Contains(id, "@react-three") then Some("three-js")
      else if Contains(id, "react-router") then Some("routing")
      else if Contains(id, "react") || Contains(id, "react-dom") then Some("react-core")
      else if Contains(id, "framer-motion") then Some("animations")
      else Some("vendor")
    else ManualChunks(id)
  }

  /**
   * In the corrected callback each dependency chunk is produced for the
   * packages it is named after: `three-js` for `@react-three`, `routing` for
   * `react-router`, and `react-core` for the remaining ids that mention
   * `react`.
   */
  lemma CorrectedDependencyChunks(id: string)
    requires Contains(id, "node_modules")
    ensures ManualChunksCorrected(id) == Some("three-js") <==> Contains(id, "@react-three")
    ensures ManualChunksCorrected(id) == Some("routing") <==>
      !Contains(id, "@react-three") && Contains(id, "react-router")
    ensures ManualChunksCorrected(id) == Some("react-core") <==>
      !Contains(id, "@react-three") && !Contains(id, "react-router") && Contains(id, "react")
  {
    if Contains(id, "react-dom") {
      assert OccursAt("react-dom", "react", 0);
      ContainsTransitive(id, "react-dom", "react");
    }
  }

  /** On every id that mentions neither `@react-three` nor `react-router` the correction changes nothing. */
  lemma CorrectedAgreesElsewhere(id: string)
    requires !Contains(id, "@react-three") && !Contains(id, "react-router")
    ensures ManualChunksCorrected(id) == ManualChunks(id)
  {
  }

  /** `assetFileNames(assetInfo)` for an asset called `name`. */
  function AssetFileNames(name: string): (r: string)
    ensures |r| >= 7 && r[..7] == "assets/"
    ensures EndsWith(r, FilePattern)
  {
    if EndsWith(name, ".css") then CssTemplate
    else if EndsWithExtension(name, ImageExtensions) then ImageTemplate
    else if EndsWithExtension(name, MediaExtensions) then MediaTemplate
    else DefaultTemplate
  }

  /**
   * The four outcomes, first match first: `.css` (case-sensitive), then an
   * image extension, then a media extension (both case-insensitive), then
   * the default.
   */
  lemma AssetRoutes(name: string)
    ensures AssetFileNames(name) == CssTemplate <==> EndsWith(name, ".css")
    ensures AssetFileNames(name) == ImageTemplate <==>
      !EndsWith(name, ".css") && EndsWithExtension(name, ImageExtensions)
    ensures AssetFileNames(name) == MediaTemplate <==>
      !EndsWith(name, ".css") && !EndsWithExtension(name, ImageExtensions)
      && EndsWithExtension(name, MediaExtensions)
    ensures AssetFileNames(name) == DefaultTemplate <==>
      !EndsWith(name, ".css") && !EndsWithExtension(name, ImageExtensions)
      && !EndsWithExtension(name, MediaExtensions)
  {
  }

  /** No listed extension contains a dot. */
  lemma ExtensionsDotFree()
    ensures forall i :: 0 <= i < |ImageExtensions| ==> '.' !in ImageExtensions[i]
    ensures forall i :: 0 <= i < |MediaExtensions| ==> '.' !in MediaExtensions[i]
  {
  }

  /**
   * The two case-insensitive tests look only at the text after the last
   * dot: an asset goes to `images` or `media` exactly when that text,
   * lower-cased, is one of the listed extensions (and the name does not
   * end in `.css`).
   */
  lemma AssetRoutesByExtension(name: string)
    ensures AssetFileNames(name) == ImageTemplate <==>
      !EndsWith(name, ".css") && ExtensionOf(name).Some? && Lower(ExtensionOf(name).value) in ImageExtensions
    ensures AssetFileNames(name) == MediaTemplate <==>
      !EndsWith(name, ".css") && ExtensionOf(name).Some?
      && Lower(ExtensionOf(name).value) !in ImageExtensions && Lower(ExtensionOf(name).value) in MediaExtensions
  {
    ExtensionsDotFree();
    ExtensionTest(name, ImageExtensions);
    ExtensionTest(name, MediaExtensions);
  }

  /**
   * An asset whose name ends, in any case, in `.webp` or `.avif` matches
   * none of the tests and gets the default template.
   */
  lemma ModernImagesGetDefault(name: string)
    requires EndsWith(Lower(name), ".webp") || EndsWith(Lower(name), ".avif")
    ensures AssetFileNames(name) == DefaultTemplate
  {
    ModernExtensionsUnlisted();
    if EndsWith(Lower(name), ".webp") {
      UnlistedExtensionGetsDefault(name, "webp");
    } else {
      UnlistedExtensionGetsDefault(name, "avif");
    }
  }

  /** `webp` and `avif` are lower-case, dot-free and in neither list. */
  lemma ModernExtensionsUnlisted()
    ensures Lower("webp") == "webp" && "webp" !in ImageExtensions && "webp" !in MediaExtensions
    ensures Lower("avif") == "avif" && "avif" !in ImageExtensions && "avif" !in MediaExtensions
    ensures '.' !in "webp" && '.' !in "avif"
    ensures "." + "webp" == ".webp" && "." + "avif" == ".avif"
  {
  }

  /** A name whose lower-cased extension is a lower-case word listed nowhere gets the default template. */
  lemma UnlistedExtensionGetsDefault(name: string, ext: string)
    requires '.' !in ext && Lower(ext) == ext && ext != "css"
    requires ext !in ImageExtensions && ext !in MediaExtensions
    requires EndsWith(Lower(name), "." + ext)
    ensures AssetFileNames(name) == DefaultTemplate
  {
    assert ExtensionOf(Lower(name)) == Some(ext) by {
      DottedSuffix(Lower(name), ext);
    }
    assert ExtensionOf(name).Some? && Lower(ExtensionOf(name).value) == ext by {
      ExtensionOfLower(name);
    }
    assert !EndsWith(name, ".css") by {
      if EndsWith(name, ".css") {
        DottedSuffix(name, "css");
        assert false;
      }
    }
    NoExtensionMatch(name);
  }

  /** An asset whose lower-cased extension is listed nowhere gets the default template. */
  lemma NoExtensionMatch(name: string)
    requires ExtensionOf(name).Some? && !EndsWith(name, ".css")
    requires Lower(ExtensionOf(name).value) !in ImageExtensions
    requires Lower(ExtensionOf(name).value) !in MediaExtensions
    ensures AssetFileNames(name) == DefaultTemplate
  {
    ExtensionsDotFree();
    ExtensionTest(name, ImageExtensions);
    ExtensionTest(name, MediaExtensions);
  }

  /** An upper-case `.CSS` name is not a stylesheet to this callback: it gets the default template. */
  lemma UpperCaseCssGetsDefault(name: string)
    requires EndsWith(name, ".CSS")
    ensures AssetFileNames(name) == DefaultTemplate
  {
    DottedSuffix(name, "CSS");
    if EndsWith(name, ".css") {
      DottedSuffix(name, "css");
      assert false;
    }
    assert Lower("CSS") == "css";
    NoExtensionMatch(name);
  }
}

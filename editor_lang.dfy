/**
 * The editor's choice of syntax mode from a file path
 * (`detectLang` in src/os/apps/editor/entry.tsx): the text after the last
 * "." of the path, lower-cased, looked up in a fixed table.
 */
module EditorLang {
  import opened Strings

  /** `p.split(".").pop()?.toLowerCase()`: the last "."-separated piece, lower-cased. */
  function Extension(p: string): string {
    var parts := SplitOn(p, '.');
    LowerStr(parts[|parts| - 1])
  }

  /** The `switch` on the extension. */
  function LangOf(ext: string): (lang: string)
    ensures lang == "typescript" <==> ext == "ts" || ext == "tsx"
    ensures lang == "javascript" <==> ext == "js" || ext == "jsx"
    ensures lang == "css" <==> ext == "css"
    ensures lang == "html" <==> ext == "html" || ext == "htm"
    ensures lang == "json" <==> ext == "json"
    ensures lang == "markdown" <==> ext == "md"
    ensures lang == "plaintext" <==> ext !in {"ts", "tsx", "js", "jsx", "css", "html", "htm", "json", "md"}
  {
    match ext
    case "ts" => "typescript"
    case "tsx" => "typescript"
    case "js" => "javascript"
    case "jsx" => "javascript"
    case "css" => "css"
    case "html" => "html"
    case "htm" => "html"
    case "json" => "json"
    case "md" => "markdown"
    case _ => "plaintext"
  }

  function DetectLang(p: string): string {
    LangOf(Extension(p))
  }

  /** Only the text after the last "." counts, whatever comes before it. */
  lemma LastDotDecides(stem: string, ext: string)
    requires '.' !in ext
    ensures DetectLang(stem + "." + ext) == LangOf(LowerStr(ext))
  {
    SplitLast(stem, ext, '.');
  }

  /** A path without "." is looked up whole. */
  lemma NoDotIsWholePath(p: string)
    requires '.' !in p
    ensures DetectLang(p) == LangOf(LowerStr(p))
  {
    SplitOnSingle(p, '.');
  }

  /** The lookup ignores ASCII case: extensions equal up to case give the same mode. */
  lemma CaseInsensitive(stem1: string, ext1: string, stem2: string, ext2: string)
    requires '.' !in ext1 && '.' !in ext2
    requires LowerStr(ext1) == LowerStr(ext2)
    ensures DetectLang(stem1 + "." + ext1) == DetectLang(stem2 + "." + ext2)
  {
    LastDotDecides(stem1, ext1);
    LastDotDecides(stem2, ext2);
  }

  /** A worked example of `LastDotDecides`: an upper-case TypeScript extension is still TypeScript. */
  lemma UpperCaseTsx(stem: string)
    ensures DetectLang(stem + ".TSX") == "typescript"
  {
    assert stem + ".TSX" == stem + "." + "TSX";
    LastDotDecides(stem, "TSX");
    assert LowerStr("TSX") == "tsx";
  }
}

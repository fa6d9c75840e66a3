/**
  The plain text editor (components/code-editor.tsx): the language badge
  chosen from the file name, the line count, and the selection callback.
 */
module CodeEditor {
  import opened Wrappers
  import Text

  /** `filename.split(".").pop()`: the text after the last dot, or the whole
      name when it has no dot. */
  function Extension(filename: string): (ext: string)
    ensures '.' !in ext
  {
    Text.LastPiece(filename, '.')
  }

  /** The badge text for an extension. */
  function Language(ext: string): (lang: string)
    ensures lang == "React" <==> ext == "tsx" || ext == "jsx"
    ensures lang == "TypeScript" <==> ext == "ts"
    ensures lang == "JavaScript" <==> ext == "js"
    ensures lang == "CSS" <==> ext == "css"
    ensures lang == "HTML" <==> ext == "html"
    ensures lang == "Text" <==> ext !in {"tsx", "jsx", "ts", "js", "css", "html"}
  {
    match ext
    case "tsx" => "React"
    case "jsx" => "React"
    case "ts" => "TypeScript"
    case "js" => "JavaScript"
    case "css" => "CSS"
    case "html" => "HTML"
    case _ => "Text"
  }

  /** `getLanguage`: one of six labels, and a label other than "Text" only
      for a name whose last piece after a dot is a known extension. */
  function GetLanguage(filename: string): (lang: string)
    ensures lang in {"React", "TypeScript", "JavaScript", "CSS", "HTML", "Text"}
    ensures lang != "Text" ==> Extension(filename) in {"tsx", "jsx", "ts", "js", "css", "html"}
  {
    Language(Extension(filename))
  }

  /** The language depends only on what follows the last dot. */
  lemma LanguageFollowsLastDot(prefix: string, ext: string)
    requires '.' !in ext
    ensures Extension(prefix + "." + ext) == ext
    ensures GetLanguage(prefix + "." + ext) == Language(ext)
  {
    assert prefix + "." + ext == prefix + ['.'] + ext;
    Text.LastPieceIsTail(prefix, ext, '.');
  }

  /** A name without a dot is its own extension. */
  lemma DotlessNameIsItsOwnExtension(name: string)
    requires '.' !in name
    ensures Extension(name) == name
    ensures GetLanguage(name) == Language(name)
  {
    Text.LastPieceIsTail([], name, '.');
  }

  /** A file named just "js" is labelled JavaScript. */
  lemma BareJsIsJavaScript()
    ensures GetLanguage("js") == "JavaScript"
  {
    DotlessNameIsItsOwnExtension("js");
  }

  /** Names that differ only before their last dot get the same badge. */
  lemma SameExtensionSameLanguage(a: string, b: string, ext: string)
    requires '.' !in ext
    ensures GetLanguage(a + "." + ext) == GetLanguage(b + "." + ext)
  {
    LanguageFollowsLastDot(a, ext);
    LanguageFollowsLastDot(b, ext);
  }

  /** `content.split("\n").length`: one more than the number of line feeds,
      so never below one. */
  function LineCount(content: string): (n: nat)
    ensures n == multiset(content)['\n'] + 1
    ensures n >= 1
  {
    Text.SplitCount(content, '\n');
    |Text.Split(content, '\n')|
  }

  /** Appending a line adds one to the count. */
  lemma LineCountAppendLine(content: string, line: string)
    requires '\n' !in line
    ensures LineCount(content + "\n" + line) == LineCount(content) + 1
  {
    assert multiset(content + "\n" + line) == multiset(content) + multiset("\n") + multiset(line);
    assert multiset(line)['\n'] == 0;
  }

  /** JavaScript's clamping of a `substring` bound into `[0, len]`. */
  function Clamp(i: int, len: nat): (r: nat)
    ensures r <= len
    ensures 0 <= i <= len ==> r == i
    ensures i < 0 ==> r == 0
    ensures i > len ==> r == len
  {
    if i < 0 then 0 else if i > len then len else i
  }

  /** `s.substring(a, b)`: both bounds clamped, and swapped when the first
      is the larger. */
  function Substring(s: string, a: int, b: int): (r: string)
    ensures 0 <= a <= b <= |s| ==> r == s[a..b]
    ensures 0 <= b <= a <= |s| ==> r == s[b..a]
    ensures |r| <= |s|
  {
    var x := Clamp(a, |s|);
    var y := Clamp(b, |s|);
    if x <= y then s[x..y] else s[y..x]
  }

  /** The order of the bounds does not matter. */
  lemma SubstringSymmetric(s: string, a: int, b: int)
    ensures Substring(s, a, b) == Substring(s, b, a)
  {
  }

  /** The selection of the text field cut out of a longer text: the
      selected characters are those between the bounds, one by one. */
  lemma SubstringIsSelection(s: string, a: int, b: int)
    requires 0 <= a <= b <= |s|
    ensures |Substring(s, a, b)| == b - a
    ensures forall k :: a <= k < b ==> Substring(s, a, b)[k - a] == s[k]
  {
  }

  /** What `onSelect` receives: the selected text and the two bounds. */
  datatype Selection = Selection(text: string, start: int, end: int)

  /** `handleSelect`: with a callback, it receives the substring between the
      field's selection bounds and those same bounds; without one, nothing. */
  function HandleSelect(hasCallback: bool, value: string, start: int, end: int): (sel: Option<Selection>)
    ensures sel.Some? <==> hasCallback
    ensures sel.Some? ==> sel.value.start == start && sel.value.end == end
    ensures sel.Some? && 0 <= start <= end <= |value| ==> sel.value.text == value[start..end]
  {
    if hasCallback then Some(Selection(Substring(value, start, end), start, end)) else None
  }
}

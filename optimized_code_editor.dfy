/**
  The Monaco-based editor (components/optimized-code-editor.tsx): the badge
  style chosen from the language, the change handler and the download name.
 */
module OptimizedCodeEditor {
  import opened Wrappers
  import Text

  /** The badge style for a language name that is already lower-cased. */
  function VariantOf(lower: string): (variant: string)
    ensures variant == "default" <==> lower == "typescript" || lower == "tsx"
    ensures variant == "outline" <==> lower == "python"
    ensures variant == "secondary" <==> lower !in {"typescript", "tsx", "python"}
  {
    match lower
    case "typescript" => "default"
    case "tsx" => "default"
    case "javascript" => "secondary"
    case "jsx" => "secondary"
    case "python" => "outline"
    case _ => "secondary"
  }

  /** `languageBadgeVariant`: the language is lower-cased, then mapped to
      one of three styles; JavaScript and JSX, in any case, are "secondary". */
  function BadgeVariant(language: string): (variant: string)
    ensures variant in {"default", "secondary", "outline"}
    ensures Text.ToLower(language) in {"javascript", "jsx"} ==> variant == "secondary"
  {
    VariantOf(Text.ToLower(language))
  }

  /** The mapping ignores the case of ASCII letters: two spellings that
      lower-case alike get the same badge. */
  lemma BadgeIgnoresCase(a: string, b: string)
    requires |a| == |b| && forall i :: 0 <= i < |a| ==> Text.LowerChar(a[i]) == Text.LowerChar(b[i])
    ensures BadgeVariant(a) == BadgeVariant(b)
  {
    assert Text.ToLower(a) == Text.ToLower(b);
  }

  /** A language whose lower-case form is "typescript", "tsx" or "python"
      gets its own style; everything else, JavaScript and JSX included,
      is "secondary". */
  lemma BadgeCases(language: string)
    ensures BadgeVariant(language) == "default" <==> Text.ToLower(language) in {"typescript", "tsx"}
    ensures BadgeVariant(language) == "outline" <==> Text.ToLower(language) == "python"
    ensures BadgeVariant(language) == "secondary" <==> Text.ToLower(language) !in {"typescript", "tsx", "python"}
  {
  }

  /** `handleEditorChange`: a defined value is passed on to `onChange`,
      an undefined one is dropped. */
  function HandleEditorChange(value: Option<string>): (forwarded: Option<string>)
    ensures forwarded.Some? <==> value.Some?
    ensures forwarded.Some? ==> forwarded.value == value.value
  {
    if value.Some? then Some(value.value) else None
  }

  /** The download name: the file name, "untitled" when none is given, a
      dot, and the language. */
  function DownloadName(filename: Option<string>, language: string): (name: string)
    ensures |name| == |filename.GetOr("untitled")| + 1 + |language|
    ensures name[..|filename.GetOr("untitled")|] == filename.GetOr("untitled")
    ensures name[|filename.GetOr("untitled")|] == '.'
    ensures name[|filename.GetOr("untitled")| + 1..] == language
  {
    filename.GetOr("untitled") + "." + language
  }

  /** The download name gives back the language after its last dot, when
      the language has no dot of its own. */
  lemma DownloadNameEndsWithLanguage(filename: Option<string>, language: string)
    requires '.' !in language
    ensures Text.LastPiece(DownloadName(filename, language), '.') == language
  {
    var base := filename.GetOr("untitled");
    assert DownloadName(filename, language) == base + ['.'] + language;
    Text.LastPieceIsTail(base, language, '.');
  }
}

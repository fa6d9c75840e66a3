/**
  The editor page (app/page.tsx): the map from file names to contents, the
  order in which the sidebar lists them, and the file shown in the editor.
 */
module Page {
  /** The initial content of "main.tsx". */
  const MainTemplate: string :=
    "import React from 'react'\n\nfunction App() {\n  return (\n    <div className=\"p-4\">\n"
    + "      <h1 className=\"text-2xl font-bold\">Hello World</h1>\n"
    + "      <p>Start coding with AI assistance!</p>\n    </div>\n  )\n}\n\nexport default App"

  /** The initial content of "utils.ts". */
  const UtilsTemplate: string :=
    "export function formatDate(date: Date): string {\n  return date.toLocaleDateString()\n}\n\n"
    + "export function capitalize(str: string): string {\n  return str.charAt(0).toUpperCase() + str.slice(1)\n}"

  /** The names in `order` are pairwise distinct. */
  predicate Distinct(order: seq<string>) {
    forall i, j :: 0 <= i < j < |order| ==> order[i] != order[j]
  }

  /** Appending a name not yet listed keeps the list free of repeats. */
  lemma DistinctSnoc(order: seq<string>, name: string)
    requires Distinct(order) && name !in order
    ensures Distinct(order + [name])
  {
    forall i, j | 0 <= i < j < |order| + 1
      ensures (order + [name])[i] != (order + [name])[j]
    {
      if j == |order| {
        assert (order + [name])[i] == order[i];
        assert order[i] in order;
      } else {
        assert (order + [name])[i] == order[i] && (order + [name])[j] == order[j];
      }
    }
  }

  /** The page's state: `files`, the key order `Object.keys(files)` reports
      (first insertion first), and `activeFile`. */
  class Workspace {
    var files: map<string, string>
    var order: seq<string>
    var activeFile: string

    /** Every file is listed once, only files are listed, and the active
        file is one of them. */
    ghost predicate Valid()
      reads this
    {
      Distinct(order) && (forall f :: f in order <==> f in files) && activeFile in files
    }

    /** The initial page: "main.tsx" and "utils.ts" with their templates,
        "main.tsx" active. */
    constructor()
      ensures Valid()
      ensures activeFile == "main.tsx"
      ensures files == map["main.tsx" := MainTemplate, "utils.ts" := UtilsTemplate]
      ensures files.Keys == {"main.tsx", "utils.ts"}
      ensures order == ["main.tsx", "utils.ts"]
    {
      activeFile := "main.tsx";
      files := map["main.tsx" := MainTemplate, "utils.ts" := UtilsTemplate];
      order := ["main.tsx", "utils.ts"];
    }

    /** The names the sidebar lists. */
    function FileNames(): (names: seq<string>)
      reads this
      requires Valid()
      ensures |names| == |files.Keys|
      ensures forall f :: f in names <==> f in files
    {
      DistinctCard(order, files.Keys);
      order
    }

    /** The editor's content: the active file's content, or "" when the
        active file has none. */
    function EditorContent(): (content: string)
      reads this
      ensures activeFile in files ==> content == files[activeFile]
      ensures activeFile !in files ==> content == ""
    {
      if activeFile in files then files[activeFile] else ""
    }

    /** `updateFileContent`: the named file gets the content; every other
        file and the active file stay as they were. A name not yet present
        is added at the end of the list. */
    method UpdateFileContent(filename: string, content: string)
      requires Valid()
      modifies this
      ensures Valid()
      ensures files == old(files)[filename := content]
      ensures files.Keys == old(files.Keys) + {filename}
      ensures forall f :: f in old(files) && f != filename ==> files[f] == old(files)[f]
      ensures order == if filename in old(files) then old(order) else old(order) + [filename]
      ensures activeFile == old(activeFile)
    {
      if filename !in files {
        DistinctSnoc(order, filename);
        order := order + [filename];
      }
      files := files[filename := content];
    }

    /** `createNewFile`: the name maps to "", overwriting any content it
        had, and becomes the active file, so the editor shows "". */
    method CreateNewFile(filename: string)
      requires Valid()
      modifies this
      ensures Valid()
      ensures files == old(files)[filename := ""]
      ensures forall f :: f in old(files) && f != filename ==> files[f] == old(files)[f]
      ensures order == if filename in old(files) then old(order) else old(order) + [filename]
      ensures activeFile == filename && EditorContent() == ""
    {
      UpdateFileContent(filename, "");
      activeFile := filename;
    }

    /** `onFileSelect`: the sidebar makes one of the listed files active. */
    method SelectFile(filename: string)
      requires Valid() && filename in files
      modifies this
      ensures Valid()
      ensures activeFile == filename && files == old(files) && order == old(order)
      ensures EditorContent() == files[filename]
    {
      activeFile := filename;
    }

    /** The editor's `onChange` and the chat's `onCodeGenerated`: the
        content replaces the active file's, and the editor shows it. */
    method ReplaceActive(content: string)
      requires Valid()
      modifies this
      ensures Valid()
      ensures files == old(files)[old(activeFile) := content] && order == old(order)
      ensures activeFile == old(activeFile) && EditorContent() == content
    {
      UpdateFileContent(activeFile, content);
    }
  }

  /** A list without repeats that holds exactly the members of a set is as
      long as the set is large. */
  lemma {:induction false} DistinctCard(order: seq<string>, keys: set<string>)
    requires Distinct(order) && forall f :: f in order <==> f in keys
    ensures |order| == |keys|
  {
    if order != [] {
      var rest := order[1..];
      assert Distinct(rest) by {
        forall i, j | 0 <= i < j < |rest| ensures rest[i] != rest[j] {
          assert rest[i] == order[i + 1] && rest[j] == order[j + 1];
        }
      }
      assert order[0] !in rest by {
        forall k | 0 <= k < |rest| ensures rest[k] != order[0] {
          assert rest[k] == order[k + 1];
        }
      }
      forall f ensures f in rest <==> f in keys - {order[0]} {
        if f in rest {
          var k :| 0 <= k < |rest| && rest[k] == f;
          assert order[k + 1] == f;
        }
        if f in keys - {order[0]} {
          assert f in order;
          var k :| 0 <= k < |order| && order[k] == f;
          assert k != 0;
          assert rest[k - 1] == f;
        }
      }
      DistinctCard(rest, keys - {order[0]});
    }
  }
}

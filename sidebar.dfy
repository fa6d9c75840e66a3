/**
  The file sidebar (components/sidebar.tsx): the list of files with the
  active one highlighted, and the small form that names a new file.
 */
module Sidebar {
  import opened Wrappers
  import Text
  import Page

  /** The button style of a listed file: highlighted exactly when it is the active file. */
  function FileVariant(filename: string, activeFile: string): (variant: string)
    ensures variant == "secondary" <==> filename == activeFile
    ensures variant == "ghost" <==> filename != activeFile
  {
    if activeFile == filename then "secondary" else "ghost"
  }

  /** In a list without repeats that holds the active file, exactly one
      entry is highlighted. */
  lemma OneHighlighted(files: seq<string>, activeFile: string)
    requires Page.Distinct(files) && activeFile in files
    ensures exists i :: 0 <= i < |files| && FileVariant(files[i], activeFile) == "secondary"
    ensures forall i, j ::
      (0 <= i < |files| && 0 <= j < |files| &&
       FileVariant(files[i], activeFile) == "secondary" && FileVariant(files[j], activeFile) == "secondary")
      ==> i == j
  {
    var i :| 0 <= i < |files| && files[i] == activeFile;
    assert FileVariant(files[i], activeFile) == "secondary";
  }

  /** The sidebar's own state: the name typed so far and whether the form is shown. */
  class Panel {
    var newFileName: string
    var showNewFileInput: bool

    /** The form starts hidden and empty. */
    constructor()
      ensures newFileName == "" && !showNewFileInput
    {
      newFileName := "";
      showNewFileInput := false;
    }

    /** The Plus button shows the form. */
    method ShowInput()
      modifies this
      ensures showNewFileInput && newFileName == old(newFileName)
    {
      showNewFileInput := true;
    }

    /** Typing into the form. */
    method SetName(name: string)
      modifies this
      ensures newFileName == name && showNewFileInput == old(showNewFileInput)
    {
      newFileName := name;
    }

    /** `handleCreateFile`: a non-blank name is handed trimmed to the page's
        `createNewFile`, then the form is cleared and hidden; a blank name
        changes nothing, and the form stays as it was. */
    method HandleCreateFile(page: Page.Workspace) returns (created: Option<string>)
      requires page.Valid()
      modifies this, page
      ensures page.Valid()
      ensures created.Some? <==> !Text.IsBlank(old(newFileName))
      ensures created.Some? ==>
        created.value == Text.Trim(old(newFileName))
        && page.files == old(page.files)[created.value := ""] && page.activeFile == created.value
        && page.order == (if created.value in old(page.files) then old(page.order) else old(page.order) + [created.value])
        && newFileName == "" && !showNewFileInput
      ensures created.None? ==>
        newFileName == old(newFileName) && showNewFileInput == old(showNewFileInput)
        && page.files == old(page.files) && page.order == old(page.order) && page.activeFile == old(page.activeFile)
    {
      created := None;
      if !Text.IsBlank(newFileName) {
        var name := Text.Trim(newFileName);
        page.CreateNewFile(name);
        created := Some(name);
        newFileName := "";
        showNewFileInput := false;
      }
    }

    /** A key in the form: Enter creates, Escape hides the form but keeps
        the name, any other key does nothing. */
    method KeyDown(key: string, page: Page.Workspace) returns (created: Option<string>)
      requires page.Valid()
      modifies this, page
      ensures page.Valid()
      ensures key == "Escape" ==> !showNewFileInput && newFileName == old(newFileName) && created.None?
      ensures created.Some? <==> key == "Enter" && !Text.IsBlank(old(newFileName))
      ensures created.Some? ==>
        created.value == Text.Trim(old(newFileName))
        && page.files == old(page.files)[created.value := ""] && page.activeFile == created.value
        && page.order == (if created.value in old(page.files) then old(page.order) else old(page.order) + [created.value])
        && newFileName == "" && !showNewFileInput
      ensures key == "Enter" && created.None? ==>
        newFileName == old(newFileName) && showNewFileInput == old(showNewFileInput)
        && page.files == old(page.files) && page.order == old(page.order) && page.activeFile == old(page.activeFile)
      ensures key != "Enter" ==>
        page.files == old(page.files) && page.order == old(page.order) && page.activeFile == old(page.activeFile)
      ensures key != "Enter" && key != "Escape" ==>
        newFileName == old(newFileName) && showNewFileInput == old(showNewFileInput)
    {
      created := None;
      if key == "Enter" {
        created := HandleCreateFile(page);
      } else if key == "Escape" {
        showNewFileInput := false;
      }
    }

    /** Clicking a listed file makes it the page's active file. */
    method ClickFile(filename: string, page: Page.Workspace)
      requires page.Valid() && filename in page.FileNames()
      modifies page
      ensures page.Valid()
      ensures page.activeFile == filename && page.files == old(page.files)
      ensures FileVariant(filename, page.activeFile) == "secondary"
    {
      page.SelectFile(filename);
    }
  }
}

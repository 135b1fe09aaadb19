/** The query input (synaptic-learn/src/components/query-input.tsx): four state
    cells changed by the typing, submit, file-choice and remove-file handlers and by
    an effect, plus the `FileReader` callbacks a chosen file starts. A reader that
    has been started but has not called back is kept in `pendingReads`; callbacks
    may come in any order, so `ReaderLoaded` takes the index of the one that fires.
    The `onSubmit` prop is recorded as the sequence of queries passed to it. */
module QueryInput {
  import opened Text

  /** A `File` as the component uses it: its name and the text a reader produces. */
  datatype FileInfo = FileInfo(name: string, content: string)

  const TxtSuffix := ".txt"
  const NotATextFile := "Please select a text file (.txt)"

  /** `name.toLowerCase().endsWith(".txt")`. */
  predicate IsTextFileName(name: string) {
    var lowered := Lower(name);
    |lowered| >= |TxtSuffix| && lowered[|lowered| - |TxtSuffix|..] == TxtSuffix
  }

  lemma LowerTxt()
    ensures Lower(".TXT") == TxtSuffix
  {
    var l := Lower(".TXT");
    assert l[0] == '.' && l[1] == 't' && l[2] == 'x' && l[3] == 't';
  }

  /** A name is a text file name exactly when its last four characters spell ".txt"
      in some mix of cases. */
  lemma TextFileNameSuffix(name: string)
    ensures IsTextFileName(name) <==> |name| >= 4 && Lower(name[|name| - 4..]) == TxtSuffix
  {
    if |name| >= 4 {
      var stem := name[..|name| - 4];
      var suffix := name[|name| - 4..];
      assert name == stem + suffix;
      LowerAppend(stem, suffix);
      assert Lower(name)[|name| - 4..] == Lower(suffix);
    }
  }

  /** The suffix is matched whatever its case: any stem followed by any four
      characters that lower-case to ".txt", ".txt" and ".TXT" among them; and a name
      shorter than four characters is refused. */
  lemma TextFileNames(stem: string, suffix: string, name: string)
    ensures |suffix| == 4 && Lower(suffix) == TxtSuffix ==> IsTextFileName(stem + suffix)
    ensures IsTextFileName(stem + ".txt") && IsTextFileName(stem + ".TXT")
    ensures |name| < 4 ==> !IsTextFileName(name)
  {
    forall suf | |suf| == 4 && Lower(suf) == TxtSuffix
      ensures IsTextFileName(stem + suf)
    {
      TextFileNameSuffix(stem + suf);
      assert (stem + suf)[|stem + suf| - 4..] == suf;
    }
    LowerTxt();
    var t := Lower(".txt");
    assert t[0] == '.' && t[1] == 't' && t[2] == 'x' && t[3] == 't';
    assert t == TxtSuffix;
  }

  class QueryInputState {
    var query: string
    var displayText: string
    var isTyping: bool
    var file: Option<FileInfo>
    var pendingReads: seq<string>
    var submitted: seq<string>

    /** The effect on `[displayText]` has run: `isTyping` is `Boolean(displayText)`. */
    predicate Settled()
      reads this
    {
      isTyping == (displayText != [])
    }

    /** The text input's `disabled={file !== undefined}`. */
    predicate InputDisabled()
      reads this
    {
      file.Some?
    }

    /** The first render. */
    constructor()
      ensures query == [] && displayText == [] && !isTyping && file.None?
      ensures pendingReads == [] && submitted == []
      ensures Settled() && !InputDisabled()
    {
      query := [];
      displayText := [];
      isTyping := false;
      file := None;
      pendingReads := [];
      submitted := [];
    }

    /** The effect that follows every change of `displayText`. */
    method SyncTyping()
      modifies this`isTyping
      ensures isTyping == (displayText != [])
    {
      isTyping := displayText != [];
    }

    /** `handleInputChange`, then the effect. */
    method InputChange(newQuery: string)
      modifies this`query, this`displayText, this`isTyping
      ensures query == newQuery && displayText == newQuery
      ensures isTyping <==> newQuery != []
    {
      query := newQuery;
      displayText := newQuery;
      SyncTyping();
    }

    /** `handleFormSubmit`: `onSubmit(query)` once when the query is non-empty; the
        file is never passed. */
    method FormSubmit()
      modifies this`submitted
      ensures query != [] ==> submitted == old(submitted) + [query]
      ensures query == [] ==> submitted == old(submitted)
    {
      if query != [] {
        submitted := submitted + [query];
      }
    }

    /** A submit of the form as the browser runs it. The text input is `required`:
        while it is enabled and shows nothing, the browser blocks the submit and
        `handleFormSubmit` does not run. A disabled input is not validated. */
    method Submit()
      modifies this`submitted
      ensures displayText == [] && !InputDisabled() ==> submitted == old(submitted)
      ensures (displayText != [] || InputDisabled()) && query != [] ==> submitted == old(submitted) + [query]
      ensures query == [] ==> submitted == old(submitted)
    {
      if displayText != [] || InputDisabled() {
        FormSubmit();
      }
    }

    /** `handleFileInputChange`: no file changes nothing; a name not ending in
        ".txt" throws and changes nothing; a text file is attached, its name shown,
        and a read of its content started (then the effect runs). */
    method FileInputChange(chosen: Option<FileInfo>) returns (error: Option<string>)
      modifies this`file, this`displayText, this`isTyping, this`pendingReads
      ensures chosen.None? ==> error.None? && unchanged(this)
      ensures chosen.Some? && !IsTextFileName(chosen.value.name) ==>
        error == Some(NotATextFile) && unchanged(this)
      ensures chosen.Some? && IsTextFileName(chosen.value.name) ==>
        error.None? && file == chosen && displayText == chosen.value.name
        && pendingReads == old(pendingReads) + [chosen.value.content]
        && (isTyping <==> chosen.value.name != [])
    {
      error := None;
      if chosen.None? {
        return;
      }
      var f := chosen.value;
      if !IsTextFileName(f.name) {
        return Some(NotATextFile);
      }
      file := chosen;
      displayText := f.name;
      pendingReads := pendingReads + [f.content];
      SyncTyping();
    }

    /** The `onload` callback of pending read `k`: the query becomes that file's
        content; nothing else changes. */
    method ReaderLoaded(k: nat)
      requires k < |pendingReads|
      modifies this`query, this`pendingReads
      ensures query == old(pendingReads[k])
      ensures pendingReads == old(pendingReads[..k] + pendingReads[k + 1..])
    {
      query := pendingReads[k];
      pendingReads := pendingReads[..k] + pendingReads[k + 1..];
    }

    /** `handleRemoveFile`: the file and the shown text are cleared, the query is
        kept (then the effect runs). */
    method RemoveFile()
      modifies this`file, this`displayText, this`isTyping
      ensures file.None? && displayText == [] && !isTyping
      ensures !InputDisabled()
    {
      file := None;
      displayText := [];
      SyncTyping();
    }
  }

  /** Attaching a text file and removing it again, before its content arrives,
      leaves the query as it was, and the input enabled and empty; the started read
      is still pending and will replace the query when it completes. */
  method AttachThenRemove(input: QueryInputState, f: FileInfo)
    requires IsTextFileName(f.name)
    modifies input
    ensures input.query == old(input.query) && input.displayText == [] && input.file.None?
    ensures input.Settled() && !input.InputDisabled()
    ensures input.pendingReads == old(input.pendingReads) + [f.content]
  {
    var error := input.FileInputChange(Some(f));
    input.RemoveFile();
  }

  /** Once a text file's content has arrived, submitting sends that content: the
      input is disabled, so `required` does not block the submit. */
  method AttachReadSubmit(input: QueryInputState, f: FileInfo)
    requires IsTextFileName(f.name) && input.pendingReads == []
    modifies input
    ensures input.InputDisabled() && input.displayText == f.name
    ensures input.query == f.content
    ensures f.content != [] ==> input.submitted == old(input.submitted) + [f.content]
    ensures f.content == [] ==> input.submitted == old(input.submitted)
  {
    var error := input.FileInputChange(Some(f));
    input.ReaderLoaded(0);
    input.Submit();
  }

  /** Removing the file empties and enables the input again, so a later submit is
      blocked by `required`: the file's content, although it is now the query, is
      not sent. */
  method AttachReadRemoveSubmit(input: QueryInputState, f: FileInfo)
    requires IsTextFileName(f.name) && input.pendingReads == []
    modifies input
    ensures input.query == f.content && input.displayText == [] && !input.InputDisabled()
    ensures input.submitted == old(input.submitted)
  {
    var error := input.FileInputChange(Some(f));
    input.ReaderLoaded(0);
    input.RemoveFile();
    input.Submit();
  }
}

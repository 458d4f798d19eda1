/** `DocumentManager`: the notes kept beside the timer. An in-memory list of
    records, the id of the one open in the editor, and whether the editor has
    changed since it was saved or loaded. The editor's contents are an opaque
    value; the answers to `prompt` and `confirm`, the editor's plain text and
    the clock are parameters. */
module Documents {
  import opened Wrappers
  import opened Decimal
  import opened Text

  /** What `saveDocument` stores of the editor: its delta and its HTML. */
  datatype Content = Content(delta: string, html: string)

  /** The contents `setText('')` leaves. */
  const EmptyContent := Content("", "")

  /** A note. Timestamps are milliseconds since the epoch. */
  datatype Doc = Doc(id: string, title: string, content: Content, createdAt: int, updatedAt: int)

  /** An entry of the document dropdown: its value and its caption. */
  datatype Choice = Choice(value: string, caption: string)

  const NewDocumentLabel := "-- New Document --"

  /** Titles taken from the text are cut to this many characters. */
  const TitleLength := 50

  /** `doc_${Date.now()}`. */
  function NewId(now: int): (id: string)
    ensures |id| > 4 && id[..4] == "doc_" && id[4..] == IntToString(now)
  {
    "doc_" + IntToString(now)
  }

  /** Saves made at different instants get different ids. */
  lemma NewIdDistinct(a: nat, b: nat)
    requires a != b
    ensures NewId(a) != NewId(b)
  {
    NatToStringValue(a);
    NatToStringValue(b);
  }

  // ---------------------------------------------------------------- the list

  /** `documents.find(d => d.id === id)`, as the index of the first match. */
  function Find(docs: seq<Doc>, id: string): (r: Option<nat>)
    ensures r.Some? ==> r.value < |docs| && docs[r.value].id == id
    ensures r.Some? ==> forall j :: 0 <= j < r.value ==> docs[j].id != id
    ensures r.None? <==> forall j :: 0 <= j < |docs| ==> docs[j].id != id
  {
    if docs == [] then None
    else if docs[0].id == id then Some(0)
    else match Find(docs[1..], id)
      case None => None
      case Some(k) => Some(k + 1)
  }

  /** `documents.filter(d => d.id !== id)`. */
  function RemoveId(docs: seq<Doc>, id: string): (r: seq<Doc>)
    ensures |r| <= |docs|
  {
    if docs == [] then []
    else if docs[0].id == id then RemoveId(docs[1..], id)
    else [docs[0]] + RemoveId(docs[1..], id)
  }

  /** Exactly the records with another id are kept. */
  lemma {:induction false} RemoveIdMembers(docs: seq<Doc>, id: string)
    ensures forall d :: d in RemoveId(docs, id) <==> d in docs && d.id != id
  {
    if docs != [] {
      RemoveIdMembers(docs[1..], id);
      assert docs == [docs[0]] + docs[1..];
    }
  }

  /** The filter works record by record, so the kept records stay in their
      order: it distributes over concatenation. */
  lemma {:induction false} RemoveIdAppend(a: seq<Doc>, b: seq<Doc>, id: string)
    ensures RemoveId(a + b, id) == RemoveId(a, id) + RemoveId(b, id)
  {
    if a == [] {
      assert a + b == b;
    } else {
      assert (a + b)[0] == a[0];
      assert (a + b)[1..] == a[1..] + b;
      RemoveIdAppend(a[1..], b, id);
      if a[0].id != id {
        assert RemoveId(a + b, id) == [a[0]] + RemoveId(a[1..] + b, id);
        assert RemoveId(a, id) == [a[0]] + RemoveId(a[1..], id);
      }
    }
  }

  /** Removing an id that no record has changes nothing. */
  lemma {:induction false} RemoveIdAbsent(docs: seq<Doc>, id: string)
    requires Find(docs, id).None?
    ensures RemoveId(docs, id) == docs
  {
    if docs != [] {
      RemoveIdAbsent(docs[1..], id);
    }
  }

  /** The update of `saveDocument` for an open document: the first record with
      the id gets the new title, content and update time. */
  function Rewrite(docs: seq<Doc>, id: string, title: string, content: Content, now: int): seq<Doc> {
    match Find(docs, id)
    case None => docs
    case Some(i) => docs[i := docs[i].(title := title, content := content, updatedAt := now)]
  }

  /** Only that record changes, and only in those three fields: the ids,
      creation times, order and length are kept. */
  lemma RewriteSpec(docs: seq<Doc>, id: string, title: string, content: Content, now: int)
    ensures var r := Rewrite(docs, id, title, content, now);
      && |r| == |docs|
      && (forall j :: 0 <= j < |docs| ==> r[j].id == docs[j].id && r[j].createdAt == docs[j].createdAt)
      && (Find(docs, id).None? ==> r == docs)
      && (Find(docs, id).Some? ==>
            var i := Find(docs, id).value;
            && r[i] == Doc(id, title, content, docs[i].createdAt, now)
            && forall j :: 0 <= j < |docs| && j != i ==> r[j] == docs[j])
  {
  }

  // ---------------------------------------------------------------- titles

  /** The first line whose trim is not empty, trimmed and cut to the title
      length. */
  function FirstTitle(lines: seq<string>): Option<string> {
    if lines == [] then None
    else if Trim(lines[0]) != [] then Some(Prefix(Trim(lines[0]), TitleLength))
    else FirstTitle(lines[1..])
  }

  /** No title is found exactly when every line is blank. */
  lemma {:induction false} FirstTitleBlank(lines: seq<string>)
    ensures FirstTitle(lines).None? <==> forall i :: 0 <= i < |lines| ==> Trim(lines[i]) == []
  {
    if lines != [] {
      FirstTitleBlank(lines[1..]);
      if Trim(lines[0]) == [] {
        forall i | 1 <= i < |lines|
          ensures Trim(lines[i]) == Trim(lines[1..][i - 1])
        {
        }
      }
    }
  }

  /** A title found in the text is non-empty, at most fifty characters, and
      does not start with a space. */
  lemma {:induction false} FirstTitleShape(lines: seq<string>)
    ensures FirstTitle(lines).Some? ==>
      var t := FirstTitle(lines).value;
      0 < |t| <= TitleLength && !IsSpace(t[0])
  {
    if lines != [] {
      if Trim(lines[0]) != [] {
        TrimSpec(lines[0]);
      } else {
        FirstTitleShape(lines[1..]);
      }
    }
  }

  /** One step of the search: the title from line `i` on is that line's, or
      the title from the next line on. */
  lemma FirstTitleFrom(lines: seq<string>, i: nat)
    requires i < |lines|
    ensures FirstTitle(lines[i..]) ==
      if Trim(lines[i]) != [] then Some(Prefix(Trim(lines[i]), TitleLength)) else FirstTitle(lines[i + 1..])
  {
    assert lines[i..][0] == lines[i];
    assert lines[i..][1..] == lines[i + 1..];
  }

  /** `extractTitleFromContent`: the first non-blank line of the editor text
      or, when there is none, the "Untitled" title the caller built from the
      date. */
  method ExtractTitleFromContent(text: string, untitled: string) returns (title: string)
    ensures title == FirstTitle(Lines(text)).GetOr(untitled)
  {
    var lines := Lines(text);
    var i := 0;
    while i < |lines|
      invariant 0 <= i <= |lines|
      invariant FirstTitle(lines) == FirstTitle(lines[i..])
    {
      var trimmed := Trim(lines[i]);
      FirstTitleFrom(lines, i);
      if |trimmed| > 0 {
        return Prefix(trimmed, TitleLength);
      }
      i := i + 1;
    }
    assert lines[i..] == [];
    return untitled;
  }

  /** The title `promptForTitle` returns for the answer to the prompt (`None`
      when it was cancelled). */
  function PromptedTitle(answer: Option<string>, text: string, untitled: string): Option<string> {
    match answer
    case None => None
    case Some(a) =>
      if a == "" || Trim(a) == "" then Some(Trim(FirstTitle(Lines(text)).GetOr(untitled)))
      else Some(Trim(a))
  }

  /** Cancelling gives no title; a typed title is used trimmed; a blank one is
      replaced by the title taken from the text. */
  lemma PromptedTitleCases(answer: Option<string>, text: string, untitled: string)
    ensures PromptedTitle(answer, text, untitled).None? <==> answer.None?
    ensures answer.Some? && !AllSpace(answer.value) ==>
      PromptedTitle(answer, text, untitled) == Some(Trim(answer.value))
    ensures answer.Some? && AllSpace(answer.value) ==>
      PromptedTitle(answer, text, untitled) == Some(Trim(FirstTitle(Lines(text)).GetOr(untitled)))
  {
    if answer.Some? {
      TrimSpec(answer.value);
    }
  }

  /** Whatever `promptForTitle` returns is trimmed, and it is empty only when
      the answer, the text and the fallback are all blank. */
  lemma PromptedTitleTrimmed(answer: Option<string>, text: string, untitled: string)
    requires answer.Some?
    ensures IsTrimmed(PromptedTitle(answer, text, untitled).value)
    ensures PromptedTitle(answer, text, untitled).value == [] ==>
      AllSpace(answer.value) && FirstTitle(Lines(text)).None? && AllSpace(untitled)
  {
    var a := answer.value;
    var found := FirstTitle(Lines(text));
    var chosen := found.GetOr(untitled);
    var r := PromptedTitle(answer, text, untitled).value;
    TrimSpec(a);
    if a == "" || Trim(a) == "" {
      assert r == Trim(chosen);
      TrimSpec(chosen);
      if r == [] {
        FirstTitleShape(Lines(text));
      }
    } else {
      assert r == Trim(a);
    }
  }

  /** `promptForTitle`, with the answer to `prompt` as a parameter. */
  method PromptForTitle(answer: Option<string>, text: string, untitled: string) returns (title: Option<string>)
    ensures title == PromptedTitle(answer, text, untitled)
  {
    if answer.None? {
      return None;
    }
    var t := answer.value;
    if t == "" || Trim(t) == "" {
      t := ExtractTitleFromContent(text, untitled);
    }
    return Some(Trim(t));
  }

  // ---------------------------------------------------------------- dropdown

  predicate NewestFirst(s: seq<Doc>) {
    forall i, j :: 0 <= i < j < |s| ==> s[i].updatedAt >= s[j].updatedAt
  }

  /** A record no older than every record of a sorted list can go first. */
  lemma ConsNewestFirst(x: Doc, s: seq<Doc>)
    requires NewestFirst(s)
    requires forall k :: 0 <= k < |s| ==> s[k].updatedAt <= x.updatedAt
    ensures NewestFirst([x] + s)
  {
    var r := [x] + s;
    forall i, j | 0 <= i < j < |r|
      ensures r[i].updatedAt >= r[j].updatedAt
    {
      if i > 0 {
        assert r[i] == s[i - 1] && r[j] == s[j - 1];
      }
    }
  }

  /** Puts `d` before the first record that is not newer than it. */
  function Insert(d: Doc, s: seq<Doc>): (r: seq<Doc>)
    ensures multiset(r) == multiset(s) + multiset{d}
    ensures |r| == |s| + 1
  {
    if s == [] || s[0].updatedAt <= d.updatedAt then [d] + s
    else
      assert s == [s[0]] + s[1..];
      [s[0]] + Insert(d, s[1..])
  }

  /** Inserting keeps an upper bound on the update times. */
  lemma {:induction false} InsertBounded(d: Doc, s: seq<Doc>, top: int)
    requires d.updatedAt <= top
    requires forall k :: 0 <= k < |s| ==> s[k].updatedAt <= top
    ensures forall k :: 0 <= k < |Insert(d, s)| ==> Insert(d, s)[k].updatedAt <= top
  {
    if !(s == [] || s[0].updatedAt <= d.updatedAt) {
      InsertBounded(d, s[1..], top);
    }
  }

  lemma {:induction false} InsertNewestFirst(d: Doc, s: seq<Doc>)
    requires NewestFirst(s)
    ensures NewestFirst(Insert(d, s))
  {
    if s == [] || s[0].updatedAt <= d.updatedAt {
      ConsNewestFirst(d, s);
    } else {
      InsertNewestFirst(d, s[1..]);
      InsertBounded(d, s[1..], s[0].updatedAt);
      ConsNewestFirst(s[0], Insert(d, s[1..]));
    }
  }

  /** The copy `updateDropdown` sorts, newest update first; records that were
      updated at the same time keep their order. */
  function SortByRecency(s: seq<Doc>): (r: seq<Doc>)
    ensures NewestFirst(r)
    ensures multiset(r) == multiset(s)
    ensures |r| == |s|
  {
    if s == [] then []
    else
      assert s == [s[0]] + s[1..];
      InsertNewestFirst(s[0], SortByRecency(s[1..]));
      Insert(s[0], SortByRecency(s[1..]))
  }

  /** The entries `updateDropdown` builds: "-- New Document --" first, then
      one per record, newest first. */
  method DropdownChoices(docs: seq<Doc>) returns (choices: seq<Choice>)
    ensures |choices| == |docs| + 1
    ensures choices[0] == Choice("", NewDocumentLabel)
    ensures var sorted := SortByRecency(docs);
      forall i :: 1 <= i < |choices| ==> choices[i] == Choice(sorted[i - 1].id, sorted[i - 1].title)
  {
    var sorted := SortByRecency(docs);
    choices := [Choice("", NewDocumentLabel)];
    for k := 0 to |sorted|
      invariant |choices| == k + 1
      invariant choices[0] == Choice("", NewDocumentLabel)
      invariant forall i :: 1 <= i < |choices| ==> choices[i] == Choice(sorted[i - 1].id, sorted[i - 1].title)
    {
      choices := choices + [Choice(sorted[k].id, sorted[k].title)];
    }
  }

  // ---------------------------------------------------------------- the manager

  class DocumentManager {
    var documents: seq<Doc>
    var currentDocumentId: Option<string>
    var hasUnsavedChanges: bool
    /** What the editor shows. */
    var editor: Content

    /** The open id is never the empty string, which JavaScript treats as no
        id at all. */
    ghost predicate Valid()
      reads this
    {
      currentDocumentId.Some? ==> currentDocumentId.value != ""
    }

    /** The open id names a record. Every handler keeps this; only stored data
        can start without it. */
    ghost predicate CurrentKnown()
      reads this
    {
      currentDocumentId.Some? ==> Find(documents, currentDocumentId.value).Some?
    }

    /** `initialize`: takes what `loadDocuments` read (the records and the
        stored open id, `None` when absent), then `restoreCurrentDocument`
        loads that record into the editor if it exists. */
    constructor (saved: seq<Doc>, savedCurrent: Option<string>, initialEditor: Content)
      ensures Valid()
      ensures documents == saved && !hasUnsavedChanges
      ensures currentDocumentId == if savedCurrent == Some("") then None else savedCurrent
      ensures editor == (if currentDocumentId.Some? && Find(saved, currentDocumentId.value).Some?
                         then saved[Find(saved, currentDocumentId.value).value].content
                         else initialEditor)
    {
      documents := saved;
      currentDocumentId := if savedCurrent == Some("") then None else savedCurrent;
      hasUnsavedChanges := false;
      editor := initialEditor;
      new;
      RestoreCurrentDocument();
    }

    /** `restoreCurrentDocument`: shows the open record, if there is one. */
    method RestoreCurrentDocument()
      modifies this
      ensures documents == old(documents) && currentDocumentId == old(currentDocumentId)
      ensures old(currentDocumentId).Some? && Find(documents, currentDocumentId.value).Some? ==>
        editor == documents[Find(documents, currentDocumentId.value).value].content && !hasUnsavedChanges
      ensures !(old(currentDocumentId).Some? && Find(documents, currentDocumentId.value).Some?) ==>
        editor == old(editor) && hasUnsavedChanges == old(hasUnsavedChanges)
    {
      if currentDocumentId.Some? {
        var found := Find(documents, currentDocumentId.value);
        if found.Some? {
          editor := documents[found.value].content;
          hasUnsavedChanges := false;
        }
      }
    }

    /** `trackChanges`: the editor's `text-change` handler. */
    method TextChange()
      modifies this
      ensures hasUnsavedChanges
      ensures documents == old(documents) && currentDocumentId == old(currentDocumentId)
      ensures editor == old(editor)
    {
      hasUnsavedChanges := true;
    }

    /** `getCurrentTitle`: the default the title prompt shows. */
    function CurrentTitle(): (title: string)
      reads this
      ensures currentDocumentId.None? ==> title == ""
      ensures currentDocumentId.Some? && Find(documents, currentDocumentId.value).None? ==> title == ""
      ensures currentDocumentId.Some? && Find(documents, currentDocumentId.value).Some? ==>
        title == documents[Find(documents, currentDocumentId.value).value].title
    {
      if currentDocumentId.Some? then
        match Find(documents, currentDocumentId.value)
        case None => ""
        case Some(i) => documents[i].title
      else ""
    }

    /** `saveDocument()`: `answer` is what the title prompt returned, `text`
        the editor's plain text, `untitled` the dated fallback title. */
    method SaveDocument(answer: Option<string>, text: string, untitled: string, now: int)
      requires Valid()
      modifies this
      ensures Valid()
      ensures old(CurrentKnown()) ==> CurrentKnown()
      ensures answer.None? ==>
        documents == old(documents) && currentDocumentId == old(currentDocumentId)
        && hasUnsavedChanges == old(hasUnsavedChanges) && editor == old(editor)
      ensures answer.Some? ==> !hasUnsavedChanges && editor == old(editor)
      ensures answer.Some? && old(currentDocumentId).Some? ==>
        var title := PromptedTitle(answer, text, untitled).value;
        && currentDocumentId == old(currentDocumentId)
        && documents == Rewrite(old(documents), old(currentDocumentId).value, title, old(editor), now)
      ensures answer.Some? && old(currentDocumentId).None? ==>
        var title := PromptedTitle(answer, text, untitled).value;
        && currentDocumentId == Some(NewId(now))
        && documents == old(documents) + [Doc(NewId(now), title, old(editor), now, now)]
    {
      var title := PromptForTitle(answer, text, untitled);
      if title.None? {
        return;
      }
      var content := editor;
      if currentDocumentId.Some? {
        var found := Find(documents, currentDocumentId.value);
        if found.Some? {
          var i := found.value;
          documents := documents[i := documents[i].(title := title.value, content := content, updatedAt := now)];
        }
      } else {
        var newDoc := Doc(NewId(now), title.value, content, now, now);
        documents := documents + [newDoc];
        currentDocumentId := Some(newDoc.id);
        assert documents[|documents| - 1].id == newDoc.id;
      }
      hasUnsavedChanges := false;
      if old(currentDocumentId).Some? {
        RewriteSpec(old(documents), old(currentDocumentId).value, title.value, content, now);
      }
    }

    /** `loadDocument(id)`; `confirmed` is the answer to the unsaved-changes
        question, asked only when there are unsaved changes. Its one caller
        passes only non-empty ids. */
    method LoadDocument(id: string, confirmed: bool)
      requires Valid() && id != ""
      modifies this
      ensures Valid() && documents == old(documents)
      ensures old(CurrentKnown()) ==> CurrentKnown()
      ensures (old(hasUnsavedChanges) && !confirmed) || Find(documents, id).None? ==>
        currentDocumentId == old(currentDocumentId) && hasUnsavedChanges == old(hasUnsavedChanges)
        && editor == old(editor)
      ensures !(old(hasUnsavedChanges) && !confirmed) && Find(documents, id).Some? ==>
        currentDocumentId == Some(id) && !hasUnsavedChanges
        && editor == documents[Find(documents, id).value].content
    {
      if hasUnsavedChanges {
        if !confirmed {
          return;
        }
      }
      var found := Find(documents, id);
      if found.Some? {
        editor := documents[found.value].content;
        currentDocumentId := Some(id);
        hasUnsavedChanges := false;
      }
    }

    /** `createNewDocument()`. */
    method CreateNewDocument(confirmed: bool)
      requires Valid()
      modifies this
      ensures Valid() && documents == old(documents)
      ensures old(CurrentKnown()) ==> CurrentKnown()
      ensures old(hasUnsavedChanges) && !confirmed ==>
        currentDocumentId == old(currentDocumentId) && hasUnsavedChanges && editor == old(editor)
      ensures !(old(hasUnsavedChanges) && !confirmed) ==>
        currentDocumentId == None && !hasUnsavedChanges && editor == EmptyContent
    {
      if hasUnsavedChanges {
        if !confirmed {
          return;
        }
      }
      editor := EmptyContent;
      currentDocumentId := None;
      hasUnsavedChanges := false;
    }

    /** `deleteDocument(id)`; `confirmed` is the answer to the deletion
        question. */
    method DeleteDocument(id: string, confirmed: bool)
      requires Valid()
      modifies this
      ensures Valid()
      ensures old(CurrentKnown()) ==> CurrentKnown()
      ensures Find(old(documents), id).None? || !confirmed ==>
        documents == old(documents) && currentDocumentId == old(currentDocumentId)
        && hasUnsavedChanges == old(hasUnsavedChanges) && editor == old(editor)
      ensures Find(old(documents), id).Some? && confirmed ==>
        documents == RemoveId(old(documents), id)
      ensures Find(old(documents), id).Some? && confirmed && old(currentDocumentId) == Some(id) ==>
        currentDocumentId == None && editor == EmptyContent && !hasUnsavedChanges
      ensures Find(old(documents), id).Some? && confirmed && old(currentDocumentId) != Some(id) ==>
        currentDocumentId == old(currentDocumentId) && editor == old(editor)
        && hasUnsavedChanges == old(hasUnsavedChanges)
    {
      var found := Find(documents, id);
      if found.None? {
        return;
      }
      if !confirmed {
        return;
      }
      ghost var before := documents;
      documents := RemoveId(documents, id);
      if currentDocumentId == Some(id) {
        currentDocumentId := None;
        editor := EmptyContent;
        hasUnsavedChanges := false;
      } else if currentDocumentId.Some? && old(CurrentKnown()) {
        KeptStillFound(before, currentDocumentId.value, id);
      }
    }

    /** The document dropdown's change handler: the empty value is
        "-- New Document --". */
    method SelectDocument(value: string, confirmed: bool)
      requires Valid()
      modifies this
      ensures Valid()
      ensures old(CurrentKnown()) ==> CurrentKnown()
      ensures documents == old(documents)
      // a record's id: `loadDocument`
      ensures value != "" && ((old(hasUnsavedChanges) && !confirmed) || Find(documents, value).None?) ==>
        currentDocumentId == old(currentDocumentId) && hasUnsavedChanges == old(hasUnsavedChanges)
        && editor == old(editor)
      ensures value != "" && !(old(hasUnsavedChanges) && !confirmed) && Find(documents, value).Some? ==>
        currentDocumentId == Some(value) && !hasUnsavedChanges
        && editor == documents[Find(documents, value).value].content
      // the placeholder entry: `createNewDocument`
      ensures value == "" && old(hasUnsavedChanges) && !confirmed ==>
        currentDocumentId == old(currentDocumentId) && hasUnsavedChanges && editor == old(editor)
      ensures value == "" && !(old(hasUnsavedChanges) && !confirmed) ==>
        currentDocumentId == None && !hasUnsavedChanges && editor == EmptyContent
    {
      if value != "" {
        LoadDocument(value, confirmed);
      } else {
        CreateNewDocument(confirmed);
      }
    }

    /** The delete button's handler: it deletes the open document. */
    method DeleteCurrent(confirmed: bool)
      requires Valid()
      modifies this
      ensures Valid()
      ensures old(CurrentKnown()) ==> CurrentKnown()
      ensures old(currentDocumentId).None? || Find(old(documents), old(currentDocumentId).value).None? || !confirmed ==>
        documents == old(documents) && currentDocumentId == old(currentDocumentId)
        && hasUnsavedChanges == old(hasUnsavedChanges) && editor == old(editor)
      ensures old(currentDocumentId).Some? && Find(old(documents), old(currentDocumentId).value).Some? && confirmed ==>
        documents == RemoveId(old(documents), old(currentDocumentId).value)
        && currentDocumentId == None && editor == EmptyContent && !hasUnsavedChanges
    {
      if currentDocumentId.Some? {
        DeleteDocument(currentDocumentId.value, confirmed);
      }
    }

    /** `updateDropdown` and `updateUI`: the entries and the selected value.
        The records themselves are not reordered. */
    method UpdateDropdown() returns (choices: seq<Choice>, selected: string)
      ensures |choices| == |documents| + 1 && choices[0] == Choice("", NewDocumentLabel)
      ensures var sorted := SortByRecency(documents);
        forall i :: 1 <= i < |choices| ==> choices[i] == Choice(sorted[i - 1].id, sorted[i - 1].title)
      ensures multiset(choices[1..]) == multiset(Entries(documents))
      ensures selected == if currentDocumentId.Some? then currentDocumentId.value else ""
    {
      choices := DropdownChoices(documents);
      selected := if currentDocumentId.Some? then currentDocumentId.value else "";
      ChoicesPermute(documents, choices);
    }
  }

  /** A record that is not deleted is still found after a deletion. */
  lemma KeptStillFound(docs: seq<Doc>, kept: string, removed: string)
    requires kept != removed && Find(docs, kept).Some?
    ensures Find(RemoveId(docs, removed), kept).Some?
  {
    var d := docs[Find(docs, kept).value];
    RemoveIdMembers(docs, removed);
    assert d in RemoveId(docs, removed);
  }

  function Entries(s: seq<Doc>): seq<Choice> {
    seq(|s|, i requires 0 <= i < |s| => Choice(s[i].id, s[i].title))
  }

  lemma {:induction false} EntriesAppend(a: seq<Doc>, b: seq<Doc>)
    ensures Entries(a + b) == Entries(a) + Entries(b)
  {
  }

  /** Where `x` first occurs in `b`. */
  function Position(b: seq<Doc>, x: Doc): (k: nat)
    requires x in b
    ensures k < |b| && b[k] == x
  {
    if b[0] == x then 0 else Position(b[1..], x) + 1
  }

  lemma RemoveAt(b: seq<Doc>, k: nat)
    requires k < |b|
    ensures multiset(b[..k] + b[k + 1..]) == multiset(b) - multiset{b[k]}
    ensures Entries(b) == Entries(b[..k]) + [Choice(b[k].id, b[k].title)] + Entries(b[k + 1..])
    ensures Entries(b[..k] + b[k + 1..]) == Entries(b[..k]) + Entries(b[k + 1..])
  {
    assert b == b[..k] + [b[k]] + b[k + 1..];
    EntriesAppend(b[..k] + [b[k]], b[k + 1..]);
    EntriesAppend(b[..k], [b[k]]);
    EntriesAppend(b[..k], b[k + 1..]);
  }

  /** Listing the entries of two orderings of the same records gives the
      same entries. */
  lemma {:induction false} EntriesMultiset(a: seq<Doc>, b: seq<Doc>)
    requires multiset(a) == multiset(b)
    ensures multiset(Entries(a)) == multiset(Entries(b))
    decreases |a|
  {
    if a != [] {
      var x := a[0];
      assert x in multiset(b);
      var k := Position(b, x);
      var rest := b[..k] + b[k + 1..];
      RemoveAt(b, k);
      assert a == [x] + a[1..];
      assert multiset(a[1..]) == multiset(a) - multiset{x};
      EntriesAppend([x], a[1..]);
      EntriesMultiset(a[1..], rest);
      var e := Choice(x.id, x.title);
      assert Entries([x]) == [e];
      var front, back := Entries(b[..k]), Entries(b[k + 1..]);
      assert multiset(Entries(a)) == multiset{e} + multiset(Entries(a[1..]));
      assert multiset(Entries(b)) == multiset(front) + multiset{e} + multiset(back);
      assert multiset(Entries(rest)) == multiset(front) + multiset(back);
    }
  }

  lemma ChoicesPermute(docs: seq<Doc>, choices: seq<Choice>)
    requires |choices| == |docs| + 1
    requires var sorted := SortByRecency(docs);
      forall i :: 1 <= i < |choices| ==> choices[i] == Choice(sorted[i - 1].id, sorted[i - 1].title)
    ensures multiset(choices[1..]) == multiset(Entries(docs))
  {
    var sorted := SortByRecency(docs);
    assert choices[1..] == Entries(sorted);
    EntriesMultiset(sorted, docs);
  }
}

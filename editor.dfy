/** `EditorManager`: the notes panel around the rich-text editor. Its state
    is the panel's visibility, the zoom step, and which parts of the editor
    have been set up. Whether the editor library and `DocumentManager` are
    loaded, and whether constructing the editor throws, are parameters. */
module Editor {
  import opened Wrappers

  /** The zoom steps, in percent. */
  const ZoomLevels: seq<int> := [50, 75, 100, 125, 150, 200]

  /** The step the constructor starts from: 100%. */
  const DefaultZoomIndex := 2

  /** `zoomLevels[i]`; `None` is the `undefined` an index outside the list
      reads. */
  function LevelAt(i: int): (level: Option<int>)
    ensures level.Some? <==> 0 <= i < |ZoomLevels|
    ensures level.Some? ==> 50 <= level.value <= 200
  {
    if 0 <= i < |ZoomLevels| then Some(ZoomLevels[i]) else None
  }

  /** The step `zoomIn` moves to. */
  function ZoomInIndex(i: int): int {
    if i < |ZoomLevels| - 1 then i + 1 else i
  }

  /** The step `zoomOut` moves to. */
  function ZoomOutIndex(i: int): int {
    if i > 0 then i - 1 else i
  }

  /** The steps only ever move within the list, one place at a time, and
      stop at its ends. */
  lemma ZoomStepsBounded(i: int)
    requires 0 <= i < |ZoomLevels|
    ensures 0 <= ZoomInIndex(i) < |ZoomLevels| && 0 <= ZoomOutIndex(i) < |ZoomLevels|
    ensures ZoomInIndex(i) == i <==> i == |ZoomLevels| - 1
    ensures ZoomOutIndex(i) == i <==> i == 0
  {
  }

  /** Zooming in then out, or out then in, returns to the same step except
      at the end where the first step did nothing. */
  lemma ZoomInverse(i: int)
    requires 0 <= i < |ZoomLevels|
    ensures i < |ZoomLevels| - 1 ==> ZoomOutIndex(ZoomInIndex(i)) == i
    ensures i > 0 ==> ZoomInIndex(ZoomOutIndex(i)) == i
  {
  }

  /** A step in makes the text larger and a step out smaller, unless at the
      end. */
  lemma ZoomLevelsIncrease(i: int, j: int)
    requires 0 <= i < j < |ZoomLevels|
    ensures LevelAt(i).value < LevelAt(j).value
  {
  }

  /** An index read from storage that lies outside the list is stepped back
      towards it by `zoomOut` from above, and `zoomIn` does nothing there; from
      below `zoomIn` moves one step up and `zoomOut` does nothing. Neither
      guard checks the lower or upper end it does not test. */
  lemma ZoomOutOfRange(i: int)
    ensures i >= |ZoomLevels| ==> ZoomInIndex(i) == i && ZoomOutIndex(i) == i - 1
    ensures i < 0 ==> ZoomInIndex(i) == i + 1 && ZoomOutIndex(i) == i
  {
  }

  class EditorManager {
    var isVisible: bool
    var currentZoomIndex: int
    /** What the zoom label shows; `None` is `undefined`. */
    var zoomLevel: Option<int>
    var isInitialized: bool
    /** The editor has been constructed. */
    var hasQuill: bool
    /** A `DocumentManager` was constructed for the editor. */
    var hasDocumentManager: bool
    /** The fallback `text-change` listener that schedules auto-saves. */
    var autoSaveWired: bool
    /** A debounced auto-save is waiting to fire. */
    var autoSavePending: bool
    /** How many times the editor contents were written to storage. */
    var contentWrites: nat

    /** The zoom step lies in the list and the label shows its level. */
    ghost predicate Valid()
      reads this
    {
      0 <= currentZoomIndex < |ZoomLevels| && zoomLevel == LevelAt(currentZoomIndex)
    }

    /** The constructor, then `loadSettings` with what storage held: the zoom
        step (`None` when absent) and the visibility flag. A visible panel
        then asks for a deferred `initialize`, which is a separate call
        here. */
    constructor (storedIndex: Option<int>, storedVisible: bool)
      ensures Valid() <==> storedIndex.None? || 0 <= storedIndex.value < |ZoomLevels|
      ensures currentZoomIndex == storedIndex.GetOr(DefaultZoomIndex)
      ensures zoomLevel == LevelAt(currentZoomIndex)
      ensures isVisible == storedVisible
      ensures !isInitialized && !hasQuill && !hasDocumentManager && !autoSaveWired && !autoSavePending
      ensures contentWrites == 0
    {
      isVisible := false;
      zoomLevel := Some(100);
      currentZoomIndex := DefaultZoomIndex;
      isInitialized := false;
      hasQuill := false;
      hasDocumentManager := false;
      autoSaveWired := false;
      autoSavePending := false;
      contentWrites := 0;
      new;
      LoadSettings(storedIndex, storedVisible);
    }

    /** `loadSettings`: the stored step is taken as it is, with no range
        check. */
    method LoadSettings(storedIndex: Option<int>, storedVisible: bool)
      modifies this
      ensures currentZoomIndex == (if storedIndex.Some? then storedIndex.value else old(currentZoomIndex))
      ensures zoomLevel == (if storedIndex.Some? then LevelAt(storedIndex.value) else old(zoomLevel))
      ensures isVisible == (storedVisible || old(isVisible))
      ensures isInitialized == old(isInitialized) && hasQuill == old(hasQuill)
      ensures hasDocumentManager == old(hasDocumentManager) && autoSaveWired == old(autoSaveWired)
      ensures autoSavePending == old(autoSavePending) && contentWrites == old(contentWrites)
    {
      if storedIndex.Some? {
        currentZoomIndex := storedIndex.value;
        zoomLevel := LevelAt(currentZoomIndex);
      }
      if storedVisible {
        isVisible := true;
      }
    }

    /** `updateZoom`: the label follows the step. */
    method UpdateZoom()
      modifies this
      ensures zoomLevel == LevelAt(currentZoomIndex)
      ensures 0 <= currentZoomIndex < |ZoomLevels| ==> Valid()
      ensures currentZoomIndex == old(currentZoomIndex) && isVisible == old(isVisible)
      ensures isInitialized == old(isInitialized) && hasQuill == old(hasQuill)
      ensures hasDocumentManager == old(hasDocumentManager) && autoSaveWired == old(autoSaveWired)
      ensures autoSavePending == old(autoSavePending) && contentWrites == old(contentWrites)
    {
      zoomLevel := LevelAt(currentZoomIndex);
    }

    method ZoomIn()
      modifies this
      ensures currentZoomIndex == ZoomInIndex(old(currentZoomIndex))
      ensures old(currentZoomIndex) < |ZoomLevels| - 1 ==> zoomLevel == LevelAt(currentZoomIndex)
      ensures old(currentZoomIndex) >= |ZoomLevels| - 1 ==> zoomLevel == old(zoomLevel)
      ensures old(Valid()) ==> Valid()
      ensures isVisible == old(isVisible) && isInitialized == old(isInitialized) && hasQuill == old(hasQuill)
      ensures hasDocumentManager == old(hasDocumentManager) && autoSaveWired == old(autoSaveWired)
      ensures autoSavePending == old(autoSavePending) && contentWrites == old(contentWrites)
    {
      if currentZoomIndex < |ZoomLevels| - 1 {
        currentZoomIndex := currentZoomIndex + 1;
        UpdateZoom();
      }
    }

    method ZoomOut()
      modifies this
      ensures currentZoomIndex == ZoomOutIndex(old(currentZoomIndex))
      ensures old(currentZoomIndex) > 0 ==> zoomLevel == LevelAt(currentZoomIndex)
      ensures old(currentZoomIndex) <= 0 ==> zoomLevel == old(zoomLevel)
      ensures old(Valid()) ==> Valid()
      ensures isVisible == old(isVisible) && isInitialized == old(isInitialized) && hasQuill == old(hasQuill)
      ensures hasDocumentManager == old(hasDocumentManager) && autoSaveWired == old(autoSaveWired)
      ensures autoSavePending == old(autoSavePending) && contentWrites == old(contentWrites)
    {
      if currentZoomIndex > 0 {
        currentZoomIndex := currentZoomIndex - 1;
        UpdateZoom();
      }
    }

    /** `initialize`. `quillLoaded` and `managerLoaded` say whether the two
        classes are present on the page; `quillThrows` that constructing the
        editor fails, which the method catches and logs. */
    method Initialize(quillLoaded: bool, managerLoaded: bool, quillThrows: bool)
      modifies this
      ensures old(Valid()) ==> Valid()
      ensures old(isInitialized) || !quillLoaded || quillThrows ==>
        isInitialized == old(isInitialized) && hasQuill == old(hasQuill)
        && hasDocumentManager == old(hasDocumentManager) && autoSaveWired == old(autoSaveWired)
        && zoomLevel == old(zoomLevel)
      ensures !old(isInitialized) && quillLoaded && !quillThrows ==>
        isInitialized && hasQuill
        && hasDocumentManager == (old(hasDocumentManager) || managerLoaded)
        && autoSaveWired == (old(autoSaveWired) || !managerLoaded)
        && zoomLevel == LevelAt(currentZoomIndex)
      ensures isInitialized ==> hasQuill || old(isInitialized)
      ensures currentZoomIndex == old(currentZoomIndex) && isVisible == old(isVisible)
      ensures autoSavePending == old(autoSavePending) && contentWrites == old(contentWrites)
    {
      if isInitialized || !quillLoaded {
        return;
      }
      if quillThrows {
        return;
      }
      hasQuill := true;
      if managerLoaded {
        hasDocumentManager := true;
      } else {
        autoSaveWired := true;
      }
      UpdateZoom();
      isInitialized := true;
    }

    /** `toggleVisibility`: showing the panel the first time sets the editor
        up. */
    method ToggleVisibility(quillLoaded: bool, managerLoaded: bool, quillThrows: bool)
      modifies this
      ensures isVisible == !old(isVisible)
      ensures old(Valid()) ==> Valid()
      ensures !isVisible || old(isInitialized) || !quillLoaded || quillThrows ==>
        isInitialized == old(isInitialized) && hasQuill == old(hasQuill)
        && hasDocumentManager == old(hasDocumentManager) && autoSaveWired == old(autoSaveWired)
        && zoomLevel == old(zoomLevel)
      ensures isVisible && !old(isInitialized) && quillLoaded && !quillThrows ==>
        isInitialized && hasQuill
        && hasDocumentManager == (old(hasDocumentManager) || managerLoaded)
        && autoSaveWired == (old(autoSaveWired) || !managerLoaded)
        && zoomLevel == LevelAt(currentZoomIndex)
      ensures currentZoomIndex == old(currentZoomIndex)
      ensures autoSavePending == old(autoSavePending) && contentWrites == old(contentWrites)
    {
      isVisible := !isVisible;
      if isVisible {
        if !isInitialized {
          Initialize(quillLoaded, managerLoaded, quillThrows);
        }
      }
    }

    /** `scheduleAutoSave`: (re)starts the debounce unless a
        `DocumentManager` exists. */
    method ScheduleAutoSave()
      modifies this
      ensures hasDocumentManager ==> autoSavePending == old(autoSavePending)
      ensures !hasDocumentManager ==> autoSavePending
      ensures contentWrites == old(contentWrites)
      ensures isVisible == old(isVisible) && currentZoomIndex == old(currentZoomIndex) && zoomLevel == old(zoomLevel)
      ensures isInitialized == old(isInitialized) && hasQuill == old(hasQuill)
      ensures hasDocumentManager == old(hasDocumentManager) && autoSaveWired == old(autoSaveWired)
    {
      if hasDocumentManager {
        return;
      }
      autoSavePending := true;
    }

    /** `saveContent`: writes the editor contents unless there is no editor
        or a `DocumentManager` looks after them. */
    method SaveContent()
      modifies this
      ensures contentWrites == if hasQuill && !hasDocumentManager then old(contentWrites) + 1 else old(contentWrites)
      ensures autoSavePending == old(autoSavePending)
      ensures isVisible == old(isVisible) && currentZoomIndex == old(currentZoomIndex) && zoomLevel == old(zoomLevel)
      ensures isInitialized == old(isInitialized) && hasQuill == old(hasQuill)
      ensures hasDocumentManager == old(hasDocumentManager) && autoSaveWired == old(autoSaveWired)
    {
      if !hasQuill || hasDocumentManager {
        return;
      }
      contentWrites := contentWrites + 1;
    }

    /** An edit in the editor: only the fallback listener reacts. */
    method TextChange()
      modifies this
      ensures autoSavePending == (old(autoSavePending) || (autoSaveWired && !hasDocumentManager))
      ensures contentWrites == old(contentWrites)
      ensures isVisible == old(isVisible) && currentZoomIndex == old(currentZoomIndex) && zoomLevel == old(zoomLevel)
      ensures isInitialized == old(isInitialized) && hasQuill == old(hasQuill)
      ensures hasDocumentManager == old(hasDocumentManager) && autoSaveWired == old(autoSaveWired)
    {
      if autoSaveWired {
        ScheduleAutoSave();
      }
    }

    /** The debounce timeout fires. */
    method AutoSaveDue()
      modifies this
      ensures !autoSavePending
      ensures contentWrites == if old(autoSavePending) && hasQuill && !hasDocumentManager
                               then old(contentWrites) + 1 else old(contentWrites)
      ensures isVisible == old(isVisible) && currentZoomIndex == old(currentZoomIndex) && zoomLevel == old(zoomLevel)
      ensures isInitialized == old(isInitialized) && hasQuill == old(hasQuill)
      ensures hasDocumentManager == old(hasDocumentManager) && autoSaveWired == old(autoSaveWired)
    {
      if autoSavePending {
        autoSavePending := false;
        SaveContent();
      }
    }
  }

  /** With a `DocumentManager` present nothing is ever auto-saved: an edit
      schedules nothing and a save writes nothing. */
  method NoAutoSaveWithManager(m: EditorManager)
    requires m.hasDocumentManager && !m.autoSavePending
    modifies m
    ensures !m.autoSavePending && m.contentWrites == old(m.contentWrites)
  {
    m.TextChange();
    m.ScheduleAutoSave();
    m.SaveContent();
    m.AutoSaveDue();
  }
}

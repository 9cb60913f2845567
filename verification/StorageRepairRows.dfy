/** The repaired tables and the report row by row, said from the contents alone and without the canonical views. */
module StorageRepairRows {
  import opened Wrappers
  import opened Tables
  import opened StorageRepair

  // ---------------------------------------------------------------- storage objects of live contents

  ghost predicate DistinctIds(contents: seq<Content>) {
    forall a, b :: 0 <= a < b < |contents| ==> contents[a].id != contents[b].id
  }

  /** Content `i` is not deleted and has this storageId. */
  predicate Stores(contents: seq<Content>, i: int, storageId: string) {
    0 <= i < |contents| && contents[i].storageId == Some(storageId) && contents[i].isDeleted != Some(true)
  }

  /** Among the contents that store it, content `i` has the lowest id. */
  ghost predicate Describes(contents: seq<Content>, i: int, storageId: string) {
    Stores(contents, i, storageId) && forall j :: Stores(contents, j, storageId) ==> contents[i].id <= contents[j].id
  }

  ghost predicate SomePinned(contents: seq<Content>, storageId: string) {
    exists i :: Stores(contents, i, storageId) && contents[i].isPinned == Some(true)
  }

  lemma LiveIffStored(contents: seq<Content>, storageId: string)
    ensures IsLive(contents, storageId) <==> exists i :: Stores(contents, i, storageId)
    ensures Pinned(contents, storageId) <==> SomePinned(contents, storageId)
  {
    if Pinned(contents, storageId) {
      var i :| 0 <= i < |contents| && contents[i].storageId == Some(storageId) && NotDeleted(contents[i])
               && contents[i].isPinned == Some(true);
      assert Stores(contents, i, storageId);
    }
    if IsLive(contents, storageId) {
      var i :| 0 <= i < |contents| && contents[i].storageId == Some(storageId) && NotDeleted(contents[i]);
      assert Stores(contents, i, storageId);
    }
  }

  lemma ViewRowIs(contents: seq<Content>, n: nat) returns (i: nat)
    requires n < |ObjectView(contents)| && DistinctIds(contents)
    ensures var r := ObjectView(contents)[n];
            Describes(contents, i, r.storageId) && r == ObjectRow(r.storageId, contents[i].id, contents[i].metadata, Pinned(contents, r.storageId))
  {
    var r := ObjectView(contents)[n];
    ViewsAreDistinct(contents);
    LiveRowsAre(contents, contents);
    hide ObjectView, LiveRows, Pinned;
    assert r in LiveRows(contents, contents);
    i :| 0 <= i < |contents| && contents[i].storageId.Some? && NotDeleted(contents[i]) && r == RowOf(contents[i], contents);
    forall j | Stores(contents, j, r.storageId) ensures contents[i].id <= contents[j].id {
      LowestIdDescribes(contents, n, j);
    }
  }

  lemma OneDescribes(contents: seq<Content>, i: int, j: int, storageId: string)
    requires DistinctIds(contents) && Describes(contents, i, storageId) && Describes(contents, j, storageId)
    ensures i == j
  {}

  lemma OrWith(stored: Option<bool>, pinned: bool)
    ensures Or3(stored, Some(pinned)) == if pinned then Some(true) else stored
  {
    if stored.Some? { assert stored.value == true || stored.value == false; }
  }

  lemma LiveObjectAt(contents: seq<Content>, objects: Objects, now: Time, k: string, i: nat)
    requires DistinctIds(contents) && Describes(contents, i, k)
    ensures var t := RepairedObjects(contents, objects, now);
            k in t && t[k] == if k in objects
              then Object(contents[i].metadata, if Pinned(contents, k) then Some(true) else objects[k].isPinned, objects[k].createdAt, now)
              else Object(contents[i].metadata, Some(Pinned(contents, k)), now, now)
  {
    LiveIffStored(contents, k);
    ObjectViewIsLive(contents, k);
    var view := ObjectView(contents);
    var n :| 0 <= n < |view| && ObjectKey(view[n]) == k;
    var j := ViewRowIs(contents, n);
    OneDescribes(contents, i, j, k);
    NoPreviewOfContent(contents, n);
    hide ObjectView, PreviewView, Describes, Pinned, IsLive, RepairedContents, RepairedPreviews, Or3;
    ContentsAt(contents, objects, now, n);
    PreviewsElsewhere(contents, RepairedContents(contents, objects, now), now, k);
    if k in objects { OrWith(objects[k].isPinned, Pinned(contents, k)); }
  }

  /**
   The storage object of a live storageId after the repair, in full: the columns of its content with the lowest
   id, pinned exactly when the stored row was or some content that is not deleted is, created when it was first
   stored, and updated now. A stored null pin stays null unless some content is pinned.
   */
  lemma LiveObjectIs(contents: seq<Content>, objects: Objects, now: Time, k: string, i: nat)
    requires DistinctIds(contents) && Describes(contents, i, k)
    ensures var t := RepairedObjects(contents, objects, now);
            && k in t && t[k].metadata == contents[i].metadata && t[k].updatedAt == now
            && t[k].createdAt == (if k in objects then objects[k].createdAt else now)
            && (t[k].isPinned == Some(true) <==>
                  (k in objects && objects[k].isPinned == Some(true))
                  || exists j :: 0 <= j < |contents| && contents[j].storageId == Some(k)
                                 && contents[j].isDeleted != Some(true) && contents[j].isPinned == Some(true))
            && (t[k].isPinned != Some(true) ==> t[k].isPinned == if k in objects then objects[k].isPinned else Some(false))
  {
    LiveObjectAt(contents, objects, now, k, i);
    LiveIffStored(contents, k);
    hide RepairedObjects, Pinned, Describes, DistinctIds;
    if exists j :: 0 <= j < |contents| && contents[j].storageId == Some(k) && contents[j].isDeleted != Some(true)
                   && contents[j].isPinned == Some(true) {
      var j :| 0 <= j < |contents| && contents[j].storageId == Some(k) && contents[j].isDeleted != Some(true)
               && contents[j].isPinned == Some(true);
      assert Stores(contents, j, k);
    }
  }

  // ---------------------------------------------------------------- previews

  /** The preview of one size: 1 large, 2 medium, 3 small. */
  datatype Size = Size(id: Option<string>, bytes: Option<int>, column: string, name: string)

  function SizeOf(m: Metadata, order: int): Size {
    if order == 1 then Size(m.large, m.largeSize, "largePreviewStorageId", "large")
    else if order == 2 then Size(m.medium, m.mediumSize, "mediumPreviewStorageId", "medium")
    else Size(m.small, m.smallSize, "smallPreviewStorageId", "small")
  }

  /** Content `i` is not deleted and has `target` as a preview of this size, other than its own file. */
  predicate Previews(contents: seq<Content>, i: int, order: int, target: string) {
    && 0 <= i < |contents| && 1 <= order <= 3 && contents[i].isDeleted != Some(true)
    && SizeOf(contents[i].metadata, order).id == Some(target)
    && contents[i].storageId.Some? && contents[i].storageId != Some(target)
  }

  predicate Precedes(contents: seq<Content>, i: int, order: int, j: int, other: int)
    requires 0 <= i < |contents| && 0 <= j < |contents|
  {
    contents[i].id < contents[j].id || (contents[i].id == contents[j].id && order <= other)
  }

  /** Of all previews with this target, the lowest content id comes first, and within it large, medium, small. */
  ghost predicate FirstPreview(contents: seq<Content>, i: int, order: int, target: string) {
    && Previews(contents, i, order, target)
    && forall j, other :: Previews(contents, j, other, target) ==> Precedes(contents, i, order, j, other)
  }

  /** The same among the contents of one storageId. */
  ghost predicate FirstReference(contents: seq<Content>, i: int, order: int, source: string, target: string) {
    && Previews(contents, i, order, target) && contents[i].storageId == Some(source)
    && forall j, other :: Previews(contents, j, other, target) && contents[j].storageId == Some(source) ==>
         Precedes(contents, i, order, j, other)
  }

  lemma {:induction false} SelectIs(contents: seq<Content>, order: int, r: PreviewRow)
    ensures r in PreviewSelect(contents, order) <==>
            exists i :: 0 <= i < |contents| && NotDeleted(contents[i]) && r == PreviewOf(contents[i], order)
  {
    hide NotDeleted, PreviewOf;
    if contents == [] {
    } else {
      SelectIs(contents[..|contents| - 1], order, r);
    }
  }

  lemma PreviewRowsAre(contents: seq<Content>, r: PreviewRow)
    ensures r in PreviewRows(contents) <==>
            exists i, order :: 0 <= i < |contents| && 1 <= order <= 3 && NotDeleted(contents[i]) && r == PreviewOf(contents[i], order)
  {
    SelectIs(contents, 1, r);
    SelectIs(contents, 2, r);
    SelectIs(contents, 3, r);
    hide PreviewSelect, NotDeleted, PreviewOf;
  }

  lemma PreviewOfIs(contents: seq<Content>, i: nat, order: int)
    requires i < |contents| && 1 <= order <= 3
    ensures var r, c := PreviewOf(contents[i], order), contents[i];
            var size := SizeOf(c.metadata, order);
            && r == PreviewRow(c.id, c.storageId, size.id, order, c.metadata.storageType, c.metadata.previewMimeType,
                               c.metadata.previewExtension, size.bytes, size.column, size.name)
  {}

  lemma {:induction false} ReferencesAre(rows: seq<PreviewRow>, r: PreviewRow)
    ensures r in References(rows) <==> r in rows && IsReference(r)
  {
    if rows == [] {
    } else {
      ReferencesAre(rows[..|rows| - 1], r);
    }
  }

  /** The candidate rows of references are the previews. */
  lemma CandidatesAre(contents: seq<Content>, r: PreviewRow)
    ensures r in References(PreviewRows(contents)) <==>
            exists i, order :: r.target.Some? && Previews(contents, i, order, r.target.value) && r == PreviewOf(contents[i], order)
  {
    ReferencesAre(PreviewRows(contents), r);
    PreviewRowsAre(contents, r);
    hide References, PreviewRows, PreviewOf, SizeOf;
    if r in References(PreviewRows(contents)) {
      var i, order :| 0 <= i < |contents| && 1 <= order <= 3 && NotDeleted(contents[i]) && r == PreviewOf(contents[i], order);
      PreviewOfIs(contents, i, order);
      assert Previews(contents, i, order, r.target.value);
    }
    forall i, order | r.target.Some? && Previews(contents, i, order, r.target.value) && r == PreviewOf(contents[i], order)
      ensures r in References(PreviewRows(contents))
    {
      PreviewOfIs(contents, i, order);
    }
  }

  lemma TargetsAre(contents: seq<Content>, rows: seq<PreviewRow>, r: PreviewRow)
    ensures r in PureTargets(contents, rows) <==> r in rows && r.target.Some? && !IsLive(contents, r.target.value)
  {
    if r in rows && r.target.Some? && !IsLive(contents, r.target.value) { TargetsHold(contents, rows, r); }
  }

  lemma EarlierIs(contents: seq<Content>, i: nat, order: int, j: nat, other: int)
    requires i < |contents| && j < |contents| && 1 <= order <= 3 && 1 <= other <= 3
    ensures Precedes(contents, i, order, j, other) <==> !Earlier(PreviewOf(contents[j], other), PreviewOf(contents[i], order))
  {}

  lemma ReferenceRowIs(contents: seq<Content>, n: nat) returns (i: nat, order: int)
    requires n < |ReferenceView(contents)|
    ensures var k := ReferenceKey(ReferenceView(contents)[n]);
            FirstReference(contents, i, order, k.source, k.target) && ReferenceView(contents)[n] == PreviewOf(contents[i], order)
  {
    var rows, r := References(PreviewRows(contents)), ReferenceView(contents)[n];
    ViewsAreDistinct(contents);
    hide ObjectView, PreviewView, LiveRows, PureTargets, ReferenceView, References, PreviewRows, PreviewOf, SizeOf, Earlier, Precedes;
    assert r in rows;
    CandidatesAre(contents, r);
    i, order :| r.target.Some? && Previews(contents, i, order, r.target.value) && r == PreviewOf(contents[i], order);
    PreviewOfIs(contents, i, order);
    forall j, other | Previews(contents, j, other, r.target.value) && contents[j].storageId == r.source
      ensures Precedes(contents, i, order, j, other)
    {
      var q := PreviewOf(contents[j], other);
      PreviewOfIs(contents, j, other);
      CandidatesAre(contents, q);
      assert Answers(ReferenceView(contents), ReferenceKey, Earlier, q);
      EarlierIs(contents, i, order, j, other);
    }
  }

  lemma PreviewRowIs(contents: seq<Content>, n: nat) returns (i: nat, order: int)
    requires n < |PreviewView(contents)|
    ensures var k := PreviewKey(PreviewView(contents)[n]);
            FirstPreview(contents, i, order, k) && PreviewView(contents)[n] == PreviewOf(contents[i], order) && !IsLive(contents, k)
  {
    var rows := References(PreviewRows(contents));
    var r := PreviewView(contents)[n];
    ViewsAreDistinct(contents);
    hide ObjectView, PreviewView, LiveRows, PureTargets, ReferenceView, References, PreviewRows, PreviewOf, SizeOf, Earlier, Precedes, IsLive;
    assert r in PureTargets(contents, rows);
    TargetsAre(contents, rows, r);
    CandidatesAre(contents, r);
    i, order :| r.target.Some? && Previews(contents, i, order, r.target.value) && r == PreviewOf(contents[i], order);
    forall j, other | Previews(contents, j, other, r.target.value) ensures Precedes(contents, i, order, j, other) {
      var q := PreviewOf(contents[j], other);
      PreviewOfIs(contents, j, other);
      CandidatesAre(contents, q);
      TargetsAre(contents, rows, q);
      assert Answers(PreviewView(contents), PreviewKey, Earlier, q);
      EarlierIs(contents, i, order, j, other);
    }
  }

  lemma ReferenceKeysAre(contents: seq<Content>, i: int, order: int, source: string, target: string) returns (n: nat)
    requires Previews(contents, i, order, target) && contents[i].storageId == Some(source)
    ensures n < |ReferenceView(contents)| && ReferenceKey(ReferenceView(contents)[n]) == RefKey(source, target, PREVIEW)
  {
    var q := PreviewOf(contents[i], order);
    PreviewOfIs(contents, i, order);
    CandidatesAre(contents, q);
    ViewsAreDistinct(contents);
    hide ObjectView, PreviewView, LiveRows, PureTargets, ReferenceView, References, PreviewRows, PreviewOf, SizeOf;
    HasKeyOf(ReferenceView(contents), References(PreviewRows(contents)), ReferenceKey, Earlier, q);
    n :| 0 <= n < |ReferenceView(contents)| && ReferenceKey(ReferenceView(contents)[n]) == ReferenceKey(q);
  }

  lemma PreviewKeysAre(contents: seq<Content>, i: int, order: int, target: string) returns (n: nat)
    requires Previews(contents, i, order, target) && !IsLive(contents, target)
    ensures n < |PreviewView(contents)| && PreviewKey(PreviewView(contents)[n]) == target
  {
    var q := PreviewOf(contents[i], order);
    PreviewOfIs(contents, i, order);
    CandidatesAre(contents, q);
    TargetsAre(contents, References(PreviewRows(contents)), q);
    ViewsAreDistinct(contents);
    hide ObjectView, PreviewView, LiveRows, PureTargets, ReferenceView, References, PreviewRows, PreviewOf, SizeOf, IsLive;
    HasKeyOf(PreviewView(contents), PureTargets(contents, References(PreviewRows(contents))), PreviewKey, Earlier, q);
    n :| 0 <= n < |PreviewView(contents)| && PreviewKey(PreviewView(contents)[n]) == PreviewKey(q);
  }

  lemma SamePreview(contents: seq<Content>, i: int, order: int, j: int, other: int)
    requires DistinctIds(contents) && 0 <= i < |contents| && 0 <= j < |contents|
    requires Precedes(contents, i, order, j, other) && Precedes(contents, j, other, i, order)
    ensures i == j && order == other
  {}

  /**
   The storage object of a pure preview after the repair: the four columns of its first preview over what was
   stored, the stored pin or none, and nothing else.
   */
  lemma PreviewObjectIs(contents: seq<Content>, objects: Objects, now: Time, k: string, i: nat, order: int)
    requires DistinctIds(contents) && FirstPreview(contents, i, order, k) && !exists j :: Stores(contents, j, k)
    ensures var t, m := RepairedObjects(contents, objects, now), contents[i].metadata;
            && k in t
            && t[k].metadata == (if k in objects then objects[k].metadata else NO_METADATA)
                 .(storageType := m.storageType, mimeType := m.previewMimeType, extension := m.previewExtension, size := SizeOf(m, order).bytes)
            && t[k].isPinned == (if k in objects then objects[k].isPinned else Some(false))
            && t[k].createdAt == (if k in objects then objects[k].createdAt else now) && t[k].updatedAt == now
  {
    LiveIffStored(contents, k);
    var n := PreviewKeysAre(contents, i, order, k);
    var j, other := PreviewRowIs(contents, n);
    SamePreview(contents, i, order, j, other);
    PreviewOfIs(contents, i, order);
    var middle := RepairedContents(contents, objects, now);
    ObjectViewIsLive(contents, k);
    hide ObjectView, PreviewView, RepairedContents, RepairedPreviews, PreviewOf, SizeOf, IsLive, FirstPreview;
    ContentsElsewhere(contents, objects, now, k);
    PreviewsAt(contents, middle, now, n);
  }

  /** A storageId that neither a content nor a preview names keeps its row, or stays absent. */
  lemma OtherObjectIs(contents: seq<Content>, objects: Objects, now: Time, k: string)
    requires !exists i :: Stores(contents, i, k)
    requires !exists i, order :: Previews(contents, i, order, k)
    ensures var t := RepairedObjects(contents, objects, now);
            (k in t <==> k in objects) && (k in objects ==> t[k] == objects[k])
  {
    LiveIffStored(contents, k);
    ObjectViewIsLive(contents, k);
    var view := PreviewView(contents);
    hide ObjectView, PreviewView, RepairedContents, RepairedPreviews, IsLive, Previews, Stores;
    if HasKey(view, PreviewKey, k) {
      var n :| 0 <= n < |view| && PreviewKey(view[n]) == k;
      var i, order := PreviewRowIs(contents, n);
      assert false;
    }
    ContentsElsewhere(contents, objects, now, k);
    PreviewsElsewhere(contents, RepairedContents(contents, objects, now), now, k);
  }

  /** Storable in 100 characters: no longer than that, but for spaces at the end. */
  predicate FitsColumn(text: Option<string>) {
    text.Some? ==> forall i :: 100 <= i < |text.value| ==> text.value[i] == ' '
  }

  function Cut(text: Option<string>): Option<string> {
    if text.None? || |text.value| <= 100 then text else Some(text.value[..100])
  }

  lemma StoredIs(text: Option<string>)
    ensures Stored(text) == if FitsColumn(text) then Some(Cut(text)) else None
  {
    if text.Some? && |text.value| > 100 {
      var tail := text.value[TARGET_TYPE_WIDTH..];
      assert forall i :: 100 <= i < |text.value| ==> text.value[i] == tail[i - 100];
    }
  }

  /** The repaired reference of every preview, in full, and no other reference changes. */
  lemma ReferenceIs(contents: seq<Content>, refs: RefTable, now: Time, source: string, target: string, i: nat, order: int)
    requires DistinctIds(contents) && FirstReference(contents, i, order, source, target)
    ensures var t, m, k := RepairedReferences(contents, refs, now), contents[i].metadata, RefKey(source, target, "preview");
            var size := SizeOf(m, order);
            k in t && t[k] == Reference(Some(size.column), Some(size.name),
                                        if FitsColumn(m.previewMimeType) then Cut(m.previewMimeType) else None, size.bytes,
                                        if k in refs then refs[k].createdAt else now, now)
  {
    var view := ReferenceView(contents);
    var n := ReferenceKeysAre(contents, i, order, source, target);
    var j, other := ReferenceRowIs(contents, n);
    SamePreview(contents, i, order, j, other);
    PreviewOfIs(contents, i, order);
    NoRowIsTouchedTwice(contents);
    StoredIs(contents[i].metadata.previewMimeType);
    hide ReferenceView, ObjectView, PreviewView, PreviewOf, SizeOf, Stored, FirstReference, FitsColumn, Cut;
    UpsertAt(refs, view, ReferenceKey, InsertReference(now), UpdateReference(now), n);
  }

  /** The preview type of every reference to be written. */
  ghost predicate EveryType(contents: seq<Content>, p: Option<string> -> bool) {
    forall i, order, source, target ::
      FirstReference(contents, i, order, source, target) ==> p(contents[i].metadata.previewMimeType)
  }

  predicate AtMostHundred(text: Option<string>) {
    text.Some? ==> |text.value| <= 100
  }

  /** When the statement for the references can be applied at all, and when it stores every type as it is. */
  lemma TypesAreStored(contents: seq<Content>)
    requires DistinctIds(contents)
    ensures AllStorable(contents) <==> EveryType(contents, FitsColumn)
    ensures AllFit(contents) <==> EveryType(contents, AtMostHundred)
  {
    var view := ReferenceView(contents);
    forall n | 0 <= n < |view|
      ensures exists i, order, source, target :: FirstReference(contents, i, order, source, target)
                && view[n].mimeType == contents[i].metadata.previewMimeType
      ensures Storable(view[n]) <==> FitsColumn(view[n].mimeType)
    {
      var i, order := ReferenceRowIs(contents, n);
      StoredIs(view[n].mimeType);
      TypeOf(contents, i, order);
    }
    hide ReferenceView, FirstReference, FitsColumn, Storable, DistinctIds;
    forall i, order, source, target | FirstReference(contents, i, order, source, target)
      ensures exists n :: 0 <= n < |view| && view[n].mimeType == contents[i].metadata.previewMimeType
    {
      var n := FirstReferenceHasRow(contents, i, order, source, target);
    }
  }

  lemma TypeOf(contents: seq<Content>, i: int, order: int)
    requires 0 <= i < |contents| && 1 <= order <= 3
    ensures PreviewOf(contents[i], order).mimeType == contents[i].metadata.previewMimeType
  {}

  lemma FirstReferenceHasRow(contents: seq<Content>, i: int, order: int, source: string, target: string) returns (n: nat)
    requires DistinctIds(contents) && FirstReference(contents, i, order, source, target)
    ensures n < |ReferenceView(contents)| && ReferenceView(contents)[n].mimeType == contents[i].metadata.previewMimeType
  {
    n := ReferenceKeysAre(contents, i, order, source, target);
    var j, other := ReferenceRowIs(contents, n);
    SamePreview(contents, i, order, j, other);
    TypeOf(contents, i, order);
    hide ReferenceView, PreviewOf;
  }

  lemma OtherReferenceIs(contents: seq<Content>, refs: RefTable, now: Time, k: RefKey)
    requires k.kind == "preview" ==>
             !exists i, order :: Previews(contents, i, order, k.target) && contents[i].storageId == Some(k.source)
    ensures var t := RepairedReferences(contents, refs, now);
            (k in t <==> k in refs) && (k in refs ==> t[k] == refs[k])
  {
    var view := ReferenceView(contents);
    hide ReferenceView, Previews, RepairedReferences;
    if HasKey(view, ReferenceKey, k) {
      var n :| 0 <= n < |view| && ReferenceKey(view[n]) == k;
      var i, order := ReferenceRowIs(contents, n);
      assert false;
    }
    ReferencesElsewhere(contents, refs, now, k);
  }

  // ---------------------------------------------------------------- the report

  function LiveIds(contents: seq<Content>): set<string> {
    set i | 0 <= i < |contents| && contents[i].storageId.Some? && contents[i].isDeleted != Some(true) :: contents[i].storageId.value
  }

  /** Preview, content and size, for every preview of a content that is not deleted. */
  function PreviewsOf(contents: seq<Content>): set<(string, string)> {
    set i, order | 0 <= i < |contents| && 1 <= order <= 3 && SizeOf(contents[i].metadata, order).id.Some?
                   && Previews(contents, i, order, SizeOf(contents[i].metadata, order).id.value)
      :: (contents[i].storageId.value, SizeOf(contents[i].metadata, order).id.value)
  }

  function PreviewIds(contents: seq<Content>): set<string> {
    set p | p in PreviewsOf(contents) && p.1 !in LiveIds(contents) :: p.1
  }

  function ReferenceKeys(contents: seq<Content>): set<RefKey> {
    set p | p in PreviewsOf(contents) :: RefKey(p.0, p.1, "preview")
  }

  /** Another column than the describing content's, or a pin that is missing. */
  ghost predicate ObjectIsWrong(contents: seq<Content>, k: string, o: Object) {
    exists i :: Describes(contents, i, k) &&
      (o.metadata != contents[i].metadata || (SomePinned(contents, k) && o.isPinned != Some(true)))
  }

  ghost predicate PreviewIsWrong(contents: seq<Content>, k: string, o: Object) {
    exists i, order :: FirstPreview(contents, i, order, k) &&
      var m := contents[i].metadata;
      || o.metadata.storageType != m.storageType || o.metadata.mimeType != m.previewMimeType
      || o.metadata.extension != m.previewExtension || o.metadata.size != SizeOf(m, order).bytes
  }

  ghost predicate ReferenceIsWrong(contents: seq<Content>, k: RefKey, r: Reference) {
    exists i, order :: FirstReference(contents, i, order, k.source, k.target) &&
      var size := SizeOf(contents[i].metadata, order);
      || r.source != Some(size.column) || r.name != Some(size.name)
      || r.targetType != contents[i].metadata.previewMimeType || r.targetSize != size.bytes
  }

  lemma ObjectWrongIff(contents: seq<Content>, n: nat, o: Object)
    requires n < |ObjectView(contents)| && DistinctIds(contents)
    ensures var r := ObjectView(contents)[n];
            r.storageId in LiveIds(contents) && (ObjectIsWrong(contents, r.storageId, o) <==> ObjectDiffers(o, r))
  {
    var r := ObjectView(contents)[n];
    var i := ViewRowIs(contents, n);
    LiveIffStored(contents, r.storageId);
    hide ObjectView, Pinned, IsLive, SomePinned, DistinctIds;
    forall j | Describes(contents, j, r.storageId) ensures j == i { OneDescribes(contents, i, j, r.storageId); }
  }

  lemma LiveIdHasRow(contents: seq<Content>, k: string) returns (n: nat)
    requires k in LiveIds(contents)
    ensures n < |ObjectView(contents)| && ObjectKey(ObjectView(contents)[n]) == k
  {
    var i :| 0 <= i < |contents| && contents[i].storageId == Some(k) && contents[i].isDeleted != Some(true);
    assert Stores(contents, i, k);
    LiveIffStored(contents, k);
    ObjectViewIsLive(contents, k);
    hide ObjectView, IsLive;
    n :| 0 <= n < |ObjectView(contents)| && ObjectKey(ObjectView(contents)[n]) == k;
  }

  lemma ObjectCountsAre(contents: seq<Content>, objects: Objects)
    requires DistinctIds(contents)
    ensures CountIf(ObjectView(contents), Missing(objects, ObjectKey)) == |set k | k in LiveIds(contents) && k !in objects|
    ensures CountIf(ObjectView(contents), Differing(objects, ObjectKey, ObjectDiffers))
         == |set k | k in LiveIds(contents) && k in objects && ObjectIsWrong(contents, k, objects[k])|
  {
    var view := ObjectView(contents);
    var missing := set k | k in LiveIds(contents) && k !in objects;
    var wrong := set k | k in LiveIds(contents) && k in objects && ObjectIsWrong(contents, k, objects[k]);
    NoRowIsTouchedTwice(contents);
    forall n | 0 <= n < |view|
      ensures view[n].storageId in LiveIds(contents)
      ensures view[n].storageId in objects ==>
              (ObjectIsWrong(contents, view[n].storageId, objects[view[n].storageId]) <==> ObjectDiffers(objects[view[n].storageId], view[n]))
    {
      ObjectWrongIff(contents, n, if view[n].storageId in objects then objects[view[n].storageId] else Object(NO_METADATA, None, 0, 0));
    }
    hide ObjectView, PreviewView, ReferenceView, LiveIds, ObjectIsWrong, ObjectDiffers, CountIf, DistinctIds;
    forall k | k in LiveIds(contents) ensures exists n :: 0 <= n < |view| && ObjectKey(view[n]) == k {
      var n := LiveIdHasRow(contents, k);
    }
    CountKeys(view, ObjectKey, Missing(objects, ObjectKey), missing);
    CountKeys(view, ObjectKey, Differing(objects, ObjectKey, ObjectDiffers), wrong);
  }

  lemma PreviewsOfAre(contents: seq<Content>, source: string, target: string)
    ensures (source, target) in PreviewsOf(contents) <==>
            exists i, order :: Previews(contents, i, order, target) && contents[i].storageId == Some(source)
  {
    hide SizeOf;
    if (source, target) in PreviewsOf(contents) {
      var i, order :| 0 <= i < |contents| && 1 <= order <= 3 && SizeOf(contents[i].metadata, order).id.Some?
                      && Previews(contents, i, order, SizeOf(contents[i].metadata, order).id.value)
                      && (source, target) == (contents[i].storageId.value, SizeOf(contents[i].metadata, order).id.value);
      assert Previews(contents, i, order, target) && contents[i].storageId == Some(source);
    }
    forall i, order | Previews(contents, i, order, target) && contents[i].storageId == Some(source)
      ensures (source, target) in PreviewsOf(contents)
    {
      assert SizeOf(contents[i].metadata, order).id.value == target;
    }
  }

  lemma LiveIdsAre(contents: seq<Content>, k: string)
    ensures k in LiveIds(contents) <==> IsLive(contents, k)
  {}

  lemma PreviewIdsAre(contents: seq<Content>, k: string)
    ensures k in PreviewIds(contents) <==> !IsLive(contents, k) && exists i, order :: Previews(contents, i, order, k)
  {
    LiveIdsAre(contents, k);
    hide LiveIds, PreviewsOf, IsLive, Previews;
    if k in PreviewIds(contents) {
      var p :| p in PreviewsOf(contents) && p.1 !in LiveIds(contents) && p.1 == k;
      PreviewsOfAre(contents, p.0, k);
    }
    forall i, order | !IsLive(contents, k) && Previews(contents, i, order, k) ensures k in PreviewIds(contents) {
      var source := SourceOf(contents, i, order, k);
      PreviewsOfAre(contents, source, k);
      assert (source, k) in PreviewsOf(contents);
    }
  }

  lemma SourceOf(contents: seq<Content>, i: int, order: int, target: string) returns (source: string)
    requires Previews(contents, i, order, target)
    ensures contents[i].storageId == Some(source)
  {
    source := contents[i].storageId.value;
  }

  lemma PreviewWrongIff(contents: seq<Content>, n: nat, o: Object)
    requires n < |PreviewView(contents)| && DistinctIds(contents)
    ensures var r, k := PreviewView(contents)[n], PreviewKey(PreviewView(contents)[n]);
            k in PreviewIds(contents) && (PreviewIsWrong(contents, k, o) <==> PreviewDiffers(o, r))
  {
    var k := PreviewKey(PreviewView(contents)[n]);
    var i, order := PreviewRowIs(contents, n);
    PreviewIdsAre(contents, k);
    PreviewOfIs(contents, i, order);
    hide PreviewView, PreviewOf, SizeOf, IsLive, DistinctIds, Previews, Precedes, PreviewIds;
    forall j, other | FirstPreview(contents, j, other, k) ensures j == i && other == order {
      hide *;
      BothFirst(contents, i, order, j, other, k);
    }
  }

  lemma BothFirst(contents: seq<Content>, i: int, order: int, j: int, other: int, target: string)
    requires DistinctIds(contents) && FirstPreview(contents, i, order, target) && FirstPreview(contents, j, other, target)
    ensures i == j && order == other
  {
    hide DistinctIds, Precedes;
    SamePreview(contents, i, order, j, other);
  }

  lemma PreviewCountsAre(contents: seq<Content>, objects: Objects)
    requires DistinctIds(contents)
    ensures CountIf(PreviewView(contents), Missing(objects, PreviewKey)) == |set k | k in PreviewIds(contents) && k !in objects|
    ensures CountIf(PreviewView(contents), Differing(objects, PreviewKey, PreviewDiffers))
         == |set k | k in PreviewIds(contents) && k in objects && PreviewIsWrong(contents, k, objects[k])|
  {
    var view := PreviewView(contents);
    var missing := set k | k in PreviewIds(contents) && k !in objects;
    var wrong := set k | k in PreviewIds(contents) && k in objects && PreviewIsWrong(contents, k, objects[k]);
    NoRowIsTouchedTwice(contents);
    forall n | 0 <= n < |view|
      ensures var k := PreviewKey(view[n]);
              k in PreviewIds(contents)
              && (k in objects ==> (PreviewIsWrong(contents, k, objects[k]) <==> PreviewDiffers(objects[k], view[n])))
    {
      var k := PreviewKey(view[n]);
      PreviewWrongIff(contents, n, if k in objects then objects[k] else Object(NO_METADATA, None, 0, 0));
    }
    hide ObjectView, PreviewView, ReferenceView, PreviewIds, PreviewKey, PreviewIsWrong, PreviewDiffers, CountIf, DistinctIds, IsLive;
    forall k | k in PreviewIds(contents) ensures exists n :: 0 <= n < |view| && PreviewKey(view[n]) == k {
      PreviewIdsAre(contents, k);
      var i, order :| Previews(contents, i, order, k);
      var n := PreviewKeysAre(contents, i, order, k);
    }
    CountKeys(view, PreviewKey, Missing(objects, PreviewKey), missing);
    CountKeys(view, PreviewKey, Differing(objects, PreviewKey, PreviewDiffers), wrong);
  }

  lemma ReferenceKeyIs(contents: seq<Content>, source: string, target: string)
    ensures RefKey(source, target, "preview") in ReferenceKeys(contents) <==> (source, target) in PreviewsOf(contents)
  {
    hide PreviewsOf;
    if RefKey(source, target, "preview") in ReferenceKeys(contents) {
      var p :| p in PreviewsOf(contents) && RefKey(p.0, p.1, "preview") == RefKey(source, target, "preview");
      assert p == (source, target);
    }
    if (source, target) in PreviewsOf(contents) {
      var p := (source, target);
      assert p in PreviewsOf(contents);
      assert RefKey(p.0, p.1, "preview") in ReferenceKeys(contents);
    }
  }

  lemma ReferenceWrongIff(contents: seq<Content>, n: nat, o: Reference)
    requires n < |ReferenceView(contents)| && DistinctIds(contents)
    ensures var r, k := ReferenceView(contents)[n], ReferenceKey(ReferenceView(contents)[n]);
            k in ReferenceKeys(contents) && (ReferenceIsWrong(contents, k, o) <==> ReferenceDiffers(o, r))
  {
    var k := ReferenceKey(ReferenceView(contents)[n]);
    var i, order := ReferenceRowIs(contents, n);
    PreviewsOfAre(contents, k.source, k.target);
    ReferenceKeyIs(contents, k.source, k.target);
    PreviewOfIs(contents, i, order);
    hide ReferenceView, PreviewOf, SizeOf, DistinctIds, Previews, Precedes, PreviewsOf, ReferenceKeys;
    forall j, other | FirstReference(contents, j, other, k.source, k.target) ensures j == i && other == order {
      hide *;
      BothFirstReference(contents, i, order, j, other, k.source, k.target);
    }
  }

  lemma BothFirstReference(contents: seq<Content>, i: int, order: int, j: int, other: int, source: string, target: string)
    requires DistinctIds(contents)
    requires FirstReference(contents, i, order, source, target) && FirstReference(contents, j, other, source, target)
    ensures i == j && order == other
  {
    hide DistinctIds, Precedes;
    SamePreview(contents, i, order, j, other);
  }

  lemma ReferenceCountsAre(contents: seq<Content>, refs: RefTable)
    requires DistinctIds(contents)
    ensures CountIf(ReferenceView(contents), Missing(refs, ReferenceKey)) == |set k | k in ReferenceKeys(contents) && k !in refs|
    ensures CountIf(ReferenceView(contents), Differing(refs, ReferenceKey, ReferenceDiffers))
         == |set k | k in ReferenceKeys(contents) && k in refs && ReferenceIsWrong(contents, k, refs[k])|
  {
    var view := ReferenceView(contents);
    var missing := set k | k in ReferenceKeys(contents) && k !in refs;
    var wrong := set k | k in ReferenceKeys(contents) && k in refs && ReferenceIsWrong(contents, k, refs[k]);
    NoRowIsTouchedTwice(contents);
    forall n | 0 <= n < |view|
      ensures var k := ReferenceKey(view[n]);
              k in ReferenceKeys(contents)
              && (k in refs ==> (ReferenceIsWrong(contents, k, refs[k]) <==> ReferenceDiffers(refs[k], view[n])))
    {
      var k := ReferenceKey(view[n]);
      ReferenceWrongIff(contents, n, if k in refs then refs[k] else Reference(None, None, None, None, 0, 0));
    }
    hide ObjectView, PreviewView, ReferenceView, ReferenceKeys, ReferenceKey, ReferenceIsWrong, ReferenceDiffers, CountIf, DistinctIds;
    forall k | k in ReferenceKeys(contents) ensures exists n :: 0 <= n < |view| && ReferenceKey(view[n]) == k {
      var n := ReferenceHasRow(contents, k);
    }
    CountKeys(view, ReferenceKey, Missing(refs, ReferenceKey), missing);
    CountKeys(view, ReferenceKey, Differing(refs, ReferenceKey, ReferenceDiffers), wrong);
  }

  lemma ReferenceHasRow(contents: seq<Content>, k: RefKey) returns (n: nat)
    requires k in ReferenceKeys(contents)
    ensures n < |ReferenceView(contents)| && ReferenceKey(ReferenceView(contents)[n]) == k
  {
    hide PreviewsOf, ReferenceView;
    var p :| p in PreviewsOf(contents) && RefKey(p.0, p.1, "preview") == k;
    PreviewsOfAre(contents, p.0, p.1);
    var i, order :| Previews(contents, i, order, p.1) && contents[i].storageId == Some(p.0);
    n := ReferenceKeysAre(contents, i, order, p.0, p.1);
  }

  /**
   The six numbers of the report count exactly: the live storageIds without a storage object and those whose
   object has another column or misses a pin, the pure previews without an object and those with another type,
   mime type, extension or size, and the previews without a reference and those whose reference says another
   column, name, type or size.
   */
  lemma ReportCounts(contents: seq<Content>, objects: Objects, refs: RefTable)
    requires DistinctIds(contents)
    ensures ReportOf(contents, objects, refs) == Report(
              |set k | k in LiveIds(contents) && k !in objects|,
              |set k | k in LiveIds(contents) && k in objects && ObjectIsWrong(contents, k, objects[k])|,
              |set k | k in PreviewIds(contents) && k !in objects|,
              |set k | k in PreviewIds(contents) && k in objects && PreviewIsWrong(contents, k, objects[k])|,
              |set k | k in ReferenceKeys(contents) && k !in refs|,
              |set k | k in ReferenceKeys(contents) && k in refs && ReferenceIsWrong(contents, k, refs[k])|)
  {
    ObjectCountsAre(contents, objects);
    PreviewCountsAre(contents, objects);
    ReferenceCountsAre(contents, refs);
    hide ObjectView, PreviewView, ReferenceView, CountIf, LiveIds, PreviewIds, ReferenceKeys;
  }
}

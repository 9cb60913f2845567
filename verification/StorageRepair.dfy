/**
 The storage-object integrity script, check/databaseStorageObjectsIntegrity.ts: canonical views over
 the contents table, three upserts and a report of missing and mismatched rows.
 */
module StorageRepair {
  import opened Wrappers
  import opened Tables

  type Time = int

  /** The twelve columns of storageObjectColumns. */
  datatype Metadata = Metadata(
    storageType: Option<string>, mimeType: Option<string>, extension: Option<string>, size: Option<int>,
    large: Option<string>, largeSize: Option<int>, medium: Option<string>, mediumSize: Option<int>,
    small: Option<string>, smallSize: Option<int>, previewMimeType: Option<string>, previewExtension: Option<string>)

  /** A row of contents; `id` is its primary key. */
  datatype Content = Content(id: int, storageId: Option<string>, metadata: Metadata,
                             isPinned: Option<bool>, isDeleted: Option<bool>)

  /** A row of storageObjects, keyed by its unique storageId. */
  datatype Object = Object(metadata: Metadata, isPinned: Option<bool>, createdAt: Time, updatedAt: Time)

  datatype RefKey = RefKey(source: string, target: string, kind: string)

  /** A row of storageObjectReferences, keyed by its unique source, target and type. */
  datatype Reference = Reference(source: Option<string>, name: Option<string>, targetType: Option<string>,
                                 targetSize: Option<int>, createdAt: Time, updatedAt: Time)

  /** SQL OR over nullable booleans. */
  function Or3(a: Option<bool>, b: Option<bool>): Option<bool> {
    if a == Some(true) || b == Some(true) then Some(true)
    else if a == None || b == None then None
    else Some(false)
  }

  // ---------------------------------------------------------------- the canonical content view

  datatype ObjectRow = ObjectRow(storageId: string, id: int, metadata: Metadata, isPinned: bool)

  predicate NotDeleted(c: Content) {
    c.isDeleted != Some(true)
  }

  /** COALESCE(BOOL_OR(COALESCE(isPinned, false)), false) over the live contents of one storageId. */
  function Pinned(contents: seq<Content>, storageId: string): bool {
    exists i :: 0 <= i < |contents|
      && contents[i].storageId == Some(storageId) && NotDeleted(contents[i]) && contents[i].isPinned == Some(true)
  }

  /** Some content that is not deleted has this storageId. */
  predicate IsLive(contents: seq<Content>, storageId: string) {
    exists i :: 0 <= i < |contents| && contents[i].storageId == Some(storageId) && NotDeleted(contents[i])
  }

  function RowOf(c: Content, all: seq<Content>): ObjectRow
    requires c.storageId.Some?
  {
    ObjectRow(c.storageId.value, c.id, c.metadata, Pinned(all, c.storageId.value))
  }

  /** The contents that have a storageId and are not deleted, as candidate rows. */
  function LiveRows(contents: seq<Content>, all: seq<Content>): seq<ObjectRow> {
    if contents == [] then []
    else
      var c := contents[|contents| - 1];
      LiveRows(contents[..|contents| - 1], all) + if c.storageId.Some? && NotDeleted(c) then [RowOf(c, all)] else []
  }

  lemma {:induction false} LiveRowsAre(contents: seq<Content>, all: seq<Content>)
    ensures forall r :: r in LiveRows(contents, all) <==>
              exists i :: 0 <= i < |contents| && contents[i].storageId.Some? && NotDeleted(contents[i])
                          && r == RowOf(contents[i], all)
  {
    hide NotDeleted, RowOf;
    if contents == [] {
    } else {
      var front, c := contents[..|contents| - 1], contents[|contents| - 1];
      LiveRowsAre(front, all);
      assert forall i :: 0 <= i < |front| ==> contents[i] == front[i];
    }
  }

  function ObjectKey(r: ObjectRow): string { r.storageId }

  predicate LowerId(a: ObjectRow, b: ObjectRow) { a.id < b.id }

  /** getCanonicalStorageObjectSql: the content with the lowest id describes the storage object. */
  function ObjectView(contents: seq<Content>): seq<ObjectRow> {
    DistinctOn(LiveRows(contents, contents), ObjectKey, LowerId)
  }

  // ---------------------------------------------------------------- the preview views

  const PREVIEW := "preview"

  datatype PreviewRow = PreviewRow(contentId: int, source: Option<string>, target: Option<string>, order: int,
                                   storageType: Option<string>, mimeType: Option<string>, extension: Option<string>,
                                   size: Option<int>, column: string, name: string)

  /** One of the three selects of getContentPreviewReferenceRowsSql. */
  function PreviewOf(c: Content, order: int): PreviewRow {
    var m := c.metadata;
    var (target, size, column, name) :=
      if order == 1 then (m.large, m.largeSize, "largePreviewStorageId", "large")
      else if order == 2 then (m.medium, m.mediumSize, "mediumPreviewStorageId", "medium")
      else (m.small, m.smallSize, "smallPreviewStorageId", "small");
    PreviewRow(c.id, c.storageId, target, order, m.storageType, m.previewMimeType, m.previewExtension, size, column, name)
  }

  function PreviewSelect(contents: seq<Content>, order: int): seq<PreviewRow> {
    if contents == [] then []
    else
      var c := contents[|contents| - 1];
      PreviewSelect(contents[..|contents| - 1], order) + if NotDeleted(c) then [PreviewOf(c, order)] else []
  }

  /** UNION ALL of the three selects. */
  function PreviewRows(contents: seq<Content>): seq<PreviewRow> {
    PreviewSelect(contents, 1) + PreviewSelect(contents, 2) + PreviewSelect(contents, 3)
  }

  predicate IsReference(r: PreviewRow) {
    r.source.Some? && r.target.Some? && r.target != r.source
  }

  function References(rows: seq<PreviewRow>): (r: seq<PreviewRow>)
    ensures forall i :: 0 <= i < |r| ==> IsReference(r[i]) && r[i] in rows
  {
    if rows == [] then []
    else References(rows[..|rows| - 1]) + if IsReference(rows[|rows| - 1]) then [rows[|rows| - 1]] else []
  }

  /** The references whose target is no live content. */
  function PureTargets(contents: seq<Content>, rows: seq<PreviewRow>): (r: seq<PreviewRow>)
    ensures forall i :: 0 <= i < |r| ==> r[i].target.Some? && !IsLive(contents, r[i].target.value) && r[i] in rows
  {
    if rows == [] then []
    else
      var r := rows[|rows| - 1];
      PureTargets(contents, rows[..|rows| - 1])
      + if r.target.Some? && !IsLive(contents, r.target.value) then [r] else []
  }

  function PreviewKey(r: PreviewRow): string { r.target.GetOr("") }

  function ReferenceKey(r: PreviewRow): RefKey { RefKey(r.source.GetOr(""), r.target.GetOr(""), PREVIEW) }

  predicate Earlier(a: PreviewRow, b: PreviewRow) {
    a.contentId < b.contentId || (a.contentId == b.contentId && a.order < b.order)
  }

  /** getCanonicalPreviewStorageObjectSql */
  function PreviewView(contents: seq<Content>): seq<PreviewRow> {
    DistinctOn(PureTargets(contents, References(PreviewRows(contents))), PreviewKey, Earlier)
  }

  /** getCanonicalPreviewStorageObjectReferenceSql */
  function ReferenceView(contents: seq<Content>): seq<PreviewRow> {
    DistinctOn(References(PreviewRows(contents)), ReferenceKey, Earlier)
  }

  lemma Orders()
    ensures IsOrder(LowerId) && IsOrder(Earlier)
  {}

  /** Every view has one row for each of its keys, the first in its order. */
  lemma ViewsAreDistinct(contents: seq<Content>)
    ensures IsDistinctOn(ObjectView(contents), LiveRows(contents, contents), ObjectKey, LowerId)
    ensures IsDistinctOn(PreviewView(contents), PureTargets(contents, References(PreviewRows(contents))), PreviewKey, Earlier)
    ensures IsDistinctOn(ReferenceView(contents), References(PreviewRows(contents)), ReferenceKey, Earlier)
  {
    Orders();
    hide IsOrder, IsDistinctOn;
    DistinctOnIsFirst(LiveRows(contents, contents), ObjectKey, LowerId);
    DistinctOnIsFirst(PureTargets(contents, References(PreviewRows(contents))), PreviewKey, Earlier);
    DistinctOnIsFirst(References(PreviewRows(contents)), ReferenceKey, Earlier);
  }

  lemma NoRowIsTouchedTwice(contents: seq<Content>)
    ensures DistinctKeys(ObjectView(contents), ObjectKey)
    ensures DistinctKeys(PreviewView(contents), PreviewKey)
    ensures DistinctKeys(ReferenceView(contents), ReferenceKey)
  {
    ViewsAreDistinct(contents);
    hide ObjectView, PreviewView, ReferenceView, DistinctKeys;
  }

  lemma RowsOfViews(contents: seq<Content>)
    ensures forall i :: 0 <= i < |ObjectView(contents)| ==>
              var r := ObjectView(contents)[i];
              IsLive(contents, r.storageId) && r.isPinned == Pinned(contents, r.storageId)
    ensures forall i :: 0 <= i < |PreviewView(contents)| ==>
              var r := PreviewView(contents)[i]; r.target.Some? && !IsLive(contents, r.target.value)
    ensures forall i :: 0 <= i < |ReferenceView(contents)| ==> IsReference(ReferenceView(contents)[i])
  {
    ViewsAreDistinct(contents);
    LiveRowsAre(contents, contents);
    hide DistinctOn, LiveRows, PureTargets, References, Pinned, NotDeleted;
  }

  /** The content view has a row exactly for the storageIds of live contents ... */
  lemma ObjectViewIsLive(contents: seq<Content>, storageId: string)
    ensures HasKey(ObjectView(contents), ObjectKey, storageId) <==> IsLive(contents, storageId)
  {
    var view, rows := ObjectView(contents), LiveRows(contents, contents);
    ViewsAreDistinct(contents);
    LiveRowsAre(contents, contents);
    RowsOfViews(contents);
    hide ObjectView, LiveRows, Pinned, NotDeleted;
    if IsLive(contents, storageId) {
      var j :| 0 <= j < |contents| && contents[j].storageId == Some(storageId) && NotDeleted(contents[j]);
      assert RowOf(contents[j], contents) in rows;
    }
  }

  /** ... and its columns come from the live content of that storageId with the lowest id. */
  lemma LowestIdDescribes(contents: seq<Content>, i: nat, j: nat)
    requires i < |ObjectView(contents)| && j < |contents| && NotDeleted(contents[j])
    requires contents[j].storageId == Some(ObjectView(contents)[i].storageId)
    requires forall a, b :: 0 <= a < b < |contents| ==> contents[a].id != contents[b].id
    ensures ObjectView(contents)[i].id <= contents[j].id
    ensures ObjectView(contents)[i].id == contents[j].id ==> ObjectView(contents)[i].metadata == contents[j].metadata
  {
    var view, rows := ObjectView(contents), LiveRows(contents, contents);
    ViewsAreDistinct(contents);
    LiveRowsAre(contents, contents);
    hide ObjectView, LiveRows, Pinned, NotDeleted;
    assert RowOf(contents[j], contents) in rows;
    assert Answers(view, ObjectKey, LowerId, RowOf(contents[j], contents));
    assert view[i] in rows;
  }

  /** The preview upsert cannot undo the content upsert: the two views have no key in common. */
  lemma PreviewKeysAreDisjoint(contents: seq<Content>, i: nat, j: nat)
    requires i < |ObjectView(contents)| && j < |PreviewView(contents)|
    ensures ObjectKey(ObjectView(contents)[i]) != PreviewKey(PreviewView(contents)[j])
  {
    RowsOfViews(contents);
  }

  // ---------------------------------------------------------------- the repairs

  type Objects = map<string, Object>
  type RefTable = map<RefKey, Reference>

  function InsertObject(now: Time): ObjectRow -> Object {
    (r: ObjectRow) => Object(r.metadata, Some(r.isPinned), now, now)
  }

  function UpdateObject(now: Time): (Object, ObjectRow) -> Object {
    (o: Object, r: ObjectRow) => Object(r.metadata, Or3(o.isPinned, Some(r.isPinned)), o.createdAt, now)
  }

  const NO_METADATA := Metadata(None, None, None, None, None, None, None, None, None, None, None, None)

  function WithPreview(m: Metadata, r: PreviewRow): Metadata {
    m.(storageType := r.storageType, mimeType := r.mimeType, extension := r.extension, size := r.size)
  }

  /** isPinned has the column default false. */
  function InsertPreview(now: Time): PreviewRow -> Object {
    (r: PreviewRow) => Object(WithPreview(NO_METADATA, r), Some(false), now, now)
  }

  function UpdatePreview(now: Time): (Object, PreviewRow) -> Object {
    (o: Object, r: PreviewRow) => Object(WithPreview(o.metadata, r), o.isPinned, o.createdAt, now)
  }

  /** The declared width of targetType; the previewMimeType it is copied from is twice as wide. */
  const TARGET_TYPE_WIDTH := 100

  predicate AllSpaces(s: string) {
    forall i :: 0 <= i < |s| ==> s[i] == ' '
  }

  /** Storing in a VARCHAR: too long a text is an error, unless everything over the width is spaces, which are cut off. */
  function Stored(text: Option<string>): Option<Option<string>> {
    if text == None || |text.value| <= TARGET_TYPE_WIDTH then Some(text)
    else if AllSpaces(text.value[TARGET_TYPE_WIDTH..]) then Some(Some(text.value[..TARGET_TYPE_WIDTH]))
    else None
  }

  predicate Storable(r: PreviewRow) {
    Stored(r.mimeType).Some?
  }

  predicate Fits(r: PreviewRow) {
    r.mimeType.Some? ==> |r.mimeType.value| <= TARGET_TYPE_WIDTH
  }

  function InsertReference(now: Time): PreviewRow -> Reference {
    (r: PreviewRow) => Reference(Some(r.column), Some(r.name), Stored(r.mimeType).GetOr(None), r.size, now, now)
  }

  function UpdateReference(now: Time): (Reference, PreviewRow) -> Reference {
    (o: Reference, r: PreviewRow) => InsertReference(now)(r).(createdAt := o.createdAt)
  }

  function RepairedContents(contents: seq<Content>, objects: Objects, now: Time): Objects {
    Upsert(objects, ObjectView(contents), ObjectKey, InsertObject(now), UpdateObject(now))
  }

  function RepairedPreviews(contents: seq<Content>, objects: Objects, now: Time): Objects {
    Upsert(objects, PreviewView(contents), PreviewKey, InsertPreview(now), UpdatePreview(now))
  }

  function RepairedObjects(contents: seq<Content>, objects: Objects, now: Time): Objects {
    RepairedPreviews(contents, RepairedContents(contents, objects, now), now)
  }

  function RepairedReferences(contents: seq<Content>, refs: RefTable, now: Time): RefTable {
    Upsert(refs, ReferenceView(contents), ReferenceKey, InsertReference(now), UpdateReference(now))
  }

  predicate AllStorable(contents: seq<Content>) {
    forall i :: 0 <= i < |ReferenceView(contents)| ==> Storable(ReferenceView(contents)[i])
  }

  predicate AllFit(contents: seq<Content>) {
    forall i :: 0 <= i < |ReferenceView(contents)| ==> Fits(ReferenceView(contents)[i])
  }

  // ---------------------------------------------------------------- the report

  datatype Report = Report(missingObjects: nat, mismatchedObjects: nat, missingPreviews: nat, mismatchedPreviews: nat,
                           missingReferences: nat, mismatchedReferences: nat)

  predicate HasIssues(r: Report) {
    || r.missingObjects > 0 || r.mismatchedObjects > 0 || r.missingPreviews > 0 || r.mismatchedPreviews > 0
    || r.missingReferences > 0 || r.mismatchedReferences > 0
  }

  predicate ObjectDiffers(o: Object, r: ObjectRow) {
    o.metadata != r.metadata || (r.isPinned && o.isPinned != Some(true))
  }

  predicate PreviewDiffers(o: Object, r: PreviewRow) {
    WithPreview(o.metadata, r) != o.metadata
  }

  predicate ReferenceDiffers(o: Reference, r: PreviewRow) {
    o.source != Some(r.column) || o.name != Some(r.name) || o.targetType != r.mimeType || o.targetSize != r.size
  }

  function Missing<K, V, R>(table: map<K, V>, key: R -> K): R -> bool {
    (r: R) => key(r) !in table
  }

  function Differing<K, V, R>(table: map<K, V>, key: R -> K, differs: (V, R) -> bool): R -> bool {
    (r: R) => key(r) in table && differs(table[key(r)], r)
  }

  /** getIntegrityReport */
  function ReportOf(contents: seq<Content>, objects: Objects, refs: RefTable): Report {
    Report(
      CountIf(ObjectView(contents), Missing(objects, ObjectKey)),
      CountIf(ObjectView(contents), Differing(objects, ObjectKey, ObjectDiffers)),
      CountIf(PreviewView(contents), Missing(objects, PreviewKey)),
      CountIf(PreviewView(contents), Differing(objects, PreviewKey, PreviewDiffers)),
      CountIf(ReferenceView(contents), Missing(refs, ReferenceKey)),
      CountIf(ReferenceView(contents), Differing(refs, ReferenceKey, ReferenceDiffers)))
  }

  ghost predicate Sound<K, V, R>(table: map<K, V>, rows: seq<R>, key: R -> K, differs: (V, R) -> bool) {
    forall i :: 0 <= i < |rows| ==> key(rows[i]) in table && !differs(table[key(rows[i])], rows[i])
  }

  lemma SoundMeansNoCount<K, V, R>(table: map<K, V>, rows: seq<R>, key: R -> K, differs: (V, R) -> bool)
    ensures Sound(table, rows, key, differs) <==>
            CountIf(rows, Missing(table, key)) == 0 && CountIf(rows, Differing(table, key, differs)) == 0
  {
    CountIsZero(rows, Missing(table, key));
    CountIsZero(rows, Differing(table, key, differs));
    hide CountIf;
    forall i | 0 <= i < |rows| && CountIf(rows, Missing(table, key)) == 0 && CountIf(rows, Differing(table, key, differs)) == 0
      ensures key(rows[i]) in table && !differs(table[key(rows[i])], rows[i])
    {
      assert !Missing(table, key)(rows[i]) && !Differing(table, key, differs)(rows[i]);
    }
  }

  /** A clean report says exactly that every view row is present and equal in every compared column. */
  lemma CleanMeansSound(contents: seq<Content>, objects: Objects, refs: RefTable)
    ensures !HasIssues(ReportOf(contents, objects, refs)) <==>
            && Sound(objects, ObjectView(contents), ObjectKey, ObjectDiffers)
            && Sound(objects, PreviewView(contents), PreviewKey, PreviewDiffers)
            && Sound(refs, ReferenceView(contents), ReferenceKey, ReferenceDiffers)
  {
    SoundMeansNoCount(objects, ObjectView(contents), ObjectKey, ObjectDiffers);
    SoundMeansNoCount(objects, PreviewView(contents), PreviewKey, PreviewDiffers);
    SoundMeansNoCount(refs, ReferenceView(contents), ReferenceKey, ReferenceDiffers);
    hide CountIf, ObjectView, PreviewView, ReferenceView, Sound;
  }

  // ---------------------------------------------------------------- soundness of the repair

  lemma UpsertHits<K(!new), V, R>(table: map<K, V>, rows: seq<R>, key: R -> K, insert: R -> V, update: (V, R) -> V,
                                  differs: (V, R) -> bool)
    requires DistinctKeys(rows, key)
    requires forall i :: 0 <= i < |rows| ==> !differs(insert(rows[i]), rows[i])
    requires forall i, v :: 0 <= i < |rows| ==> !differs(update(v, rows[i]), rows[i])
    ensures Sound(Upsert(table, rows, key, insert, update), rows, key, differs)
  {
    var t := Upsert(table, rows, key, insert, update);
    hide Upsert;
    forall i | 0 <= i < |rows| ensures key(rows[i]) in t && !differs(t[key(rows[i])], rows[i]) {
      UpsertAt(table, rows, key, insert, update, i);
    }
  }

  lemma ContentsAreSound(contents: seq<Content>, objects: Objects, now: Time)
    ensures Sound(RepairedContents(contents, objects, now), ObjectView(contents), ObjectKey, ObjectDiffers)
  {
    NoRowIsTouchedTwice(contents);
    hide ObjectView;
    UpsertHits(objects, ObjectView(contents), ObjectKey, InsertObject(now), UpdateObject(now), ObjectDiffers);
  }

  lemma PreviewsAreSound(contents: seq<Content>, objects: Objects, now: Time)
    ensures Sound(RepairedPreviews(contents, objects, now), PreviewView(contents), PreviewKey, PreviewDiffers)
  {
    NoRowIsTouchedTwice(contents);
    hide PreviewView;
    UpsertHits(objects, PreviewView(contents), PreviewKey, InsertPreview(now), UpdatePreview(now), PreviewDiffers);
  }

  /** Outside its keys the preview upsert changes no row. */
  lemma PreviewsElsewhere(contents: seq<Content>, objects: Objects, now: Time, k: string)
    requires !HasKey(PreviewView(contents), PreviewKey, k)
    ensures k in RepairedPreviews(contents, objects, now) <==> k in objects
    ensures k in objects ==> RepairedPreviews(contents, objects, now)[k] == objects[k]
  {
    hide PreviewView;
    UpsertElsewhere(objects, PreviewView(contents), PreviewKey, InsertPreview(now), UpdatePreview(now), k);
  }

  lemma NoPreviewOfContent(contents: seq<Content>, i: nat)
    requires i < |ObjectView(contents)|
    ensures !HasKey(PreviewView(contents), PreviewKey, ObjectView(contents)[i].storageId)
  {
    hide ObjectView, PreviewView;
    if HasKey(PreviewView(contents), PreviewKey, ObjectView(contents)[i].storageId) {
      var j :| 0 <= j < |PreviewView(contents)| && PreviewKey(PreviewView(contents)[j]) == ObjectView(contents)[i].storageId;
      PreviewKeysAreDisjoint(contents, i, j);
      assert false;
    }
  }

  lemma ObjectsAreSound(contents: seq<Content>, objects: Objects, now: Time)
    ensures Sound(RepairedObjects(contents, objects, now), ObjectView(contents), ObjectKey, ObjectDiffers)
    ensures Sound(RepairedObjects(contents, objects, now), PreviewView(contents), PreviewKey, PreviewDiffers)
  {
    var middle := RepairedContents(contents, objects, now);
    ContentsAreSound(contents, objects, now);
    PreviewsAreSound(contents, middle, now);
    hide RepairedContents, RepairedPreviews, ObjectDiffers, PreviewDiffers, ObjectView, PreviewView;
    var view := ObjectView(contents);
    forall i | 0 <= i < |view|
      ensures ObjectKey(view[i]) in RepairedObjects(contents, objects, now)
      ensures !ObjectDiffers(RepairedObjects(contents, objects, now)[ObjectKey(view[i])], view[i])
    {
      NoPreviewOfContent(contents, i);
      PreviewsElsewhere(contents, middle, now, ObjectKey(view[i]));
    }
  }

  lemma ReferencesAt(contents: seq<Content>, refs: RefTable, now: Time, i: nat)
    requires i < |ReferenceView(contents)|
    ensures var r, t := ReferenceView(contents)[i], RepairedReferences(contents, refs, now);
            && ReferenceKey(r) in t
            && (ReferenceDiffers(t[ReferenceKey(r)], r) <==> Stored(r.mimeType).GetOr(None) != r.mimeType)
  {
    NoRowIsTouchedTwice(contents);
    hide ReferenceView, Stored;
    UpsertAt(refs, ReferenceView(contents), ReferenceKey, InsertReference(now), UpdateReference(now), i);
  }

  lemma StoredAsIs(r: PreviewRow)
    requires Storable(r)
    ensures Stored(r.mimeType).GetOr(None) == r.mimeType <==> Fits(r)
  {}

  /**
   From any tables the three repairs leave the report clean, exactly when every preview type that is
   copied into a reference fits its narrower column. (The statement for the references fails as a whole
   when some type cannot even be cut to the width; see Database.Run.)
   */
  lemma RepairIsSound(contents: seq<Content>, objects: Objects, refs: RefTable, now: Time)
    requires AllStorable(contents)
    ensures !HasIssues(ReportOf(contents, RepairedObjects(contents, objects, now), RepairedReferences(contents, refs, now)))
            <==> AllFit(contents)
  {
    var o, t := RepairedObjects(contents, objects, now), RepairedReferences(contents, refs, now);
    var view := ReferenceView(contents);
    CleanMeansSound(contents, o, t);
    ObjectsAreSound(contents, objects, now);
    hide RepairedObjects, RepairedReferences, ReportOf, HasIssues, ReferenceView, ReferenceDiffers, Stored, ReferenceKey;
    forall i | 0 <= i < |view|
      ensures ReferenceKey(view[i]) in t && (ReferenceDiffers(t[ReferenceKey(view[i])], view[i]) <==> !Fits(view[i]))
    {
      ReferencesAt(contents, refs, now, i);
      StoredAsIs(view[i]);
    }
  }

  lemma PreviewRowsOfOne(c: Content)
    requires NotDeleted(c)
    ensures PreviewRows([c]) == [PreviewOf(c, 1), PreviewOf(c, 2), PreviewOf(c, 3)]
  {
    assert [c][..0] == [];
    hide PreviewOf;
    assert PreviewSelect([c], 1) == [PreviewOf(c, 1)];
    assert PreviewSelect([c], 2) == [PreviewOf(c, 2)];
    assert PreviewSelect([c], 3) == [PreviewOf(c, 3)];
  }

  lemma ReferenceViewComesFrom(contents: seq<Content>)
    ensures var rows, view := References(PreviewRows(contents)), ReferenceView(contents);
            (rows != [] ==> view != []) && forall i :: 0 <= i < |view| ==> view[i] in rows
  {
    ViewsAreDistinct(contents);
    hide PreviewRows, References, ReferenceView, DistinctKeys, PreviewView, ObjectView, LiveRows, PureTargets;
    var rows := References(PreviewRows(contents));
    if rows != [] { assert Answers(ReferenceView(contents), ReferenceKey, Earlier, rows[0]); }
  }

  lemma TooLong(text: string)
    requires text == seq(101, _ => 'x')
    ensures Stored(Some(text)) == None
  {
    assert text[TARGET_TYPE_WIDTH..][0] == 'x';
  }

  /** One content whose preview type has 101 characters: the third statement fails, and its two predecessors stay applied. */
  lemma LongTypeIsNotStorable(c: Content)
    requires c.storageId == Some("a") && NotDeleted(c) && c.metadata.large == Some("b")
    requires c.metadata.previewMimeType == Some(seq(101, _ => 'x'))
    ensures !AllStorable([c])
  {
    PreviewRowsOfOne(c);
    TooLong(c.metadata.previewMimeType.value);
    var rows := PreviewRows([c]);
    assert rows[0] == PreviewOf(c, 1);
    assert IsReference(rows[0]);
    ReferencesHold(rows, rows[0]);
    ReferenceViewComesFrom([c]);
    hide PreviewSelect, References, Stored, ReferenceView, PreviewRows;
    assert ReferenceView([c])[0] in rows;
  }

  lemma {:induction false} ReferencesHold(rows: seq<PreviewRow>, r: PreviewRow)
    requires r in rows && IsReference(r)
    ensures r in References(rows)
  {
    if rows[|rows| - 1] != r { ReferencesHold(rows[..|rows| - 1], r); }
  }

  // ---------------------------------------------------------------- what the repair leaves alone

  /** One storage object through one upsert: same pin or more, same creation time. */
  ghost predicate Kept(before: Object, after: Object) {
    (before.isPinned == Some(true) ==> after.isPinned == Some(true)) && after.createdAt == before.createdAt
  }

  lemma ContentsKeep(contents: seq<Content>, objects: Objects, now: Time, k: string)
    requires k in objects
    ensures k in RepairedContents(contents, objects, now) && Kept(objects[k], RepairedContents(contents, objects, now)[k])
    ensures !IsLive(contents, k) ==> RepairedContents(contents, objects, now)[k] == objects[k]
  {
    NoRowIsTouchedTwice(contents);
    ObjectViewIsLive(contents, k);
    hide ObjectView, IsLive;
    var view := ObjectView(contents);
    if HasKey(view, ObjectKey, k) {
      var i :| 0 <= i < |view| && ObjectKey(view[i]) == k;
      UpsertAt(objects, view, ObjectKey, InsertObject(now), UpdateObject(now), i);
    } else {
      UpsertElsewhere(objects, view, ObjectKey, InsertObject(now), UpdateObject(now), k);
    }
  }

  lemma PreviewsKeep(contents: seq<Content>, objects: Objects, now: Time, k: string)
    requires k in objects
    ensures var t := RepairedPreviews(contents, objects, now);
            k in t && Kept(objects[k], t[k]) && t[k].isPinned == objects[k].isPinned
            && t[k].metadata == objects[k].metadata.(storageType := t[k].metadata.storageType,
                 mimeType := t[k].metadata.mimeType, extension := t[k].metadata.extension, size := t[k].metadata.size)
  {
    NoRowIsTouchedTwice(contents);
    hide PreviewView;
    var view := PreviewView(contents);
    if HasKey(view, PreviewKey, k) {
      var i :| 0 <= i < |view| && PreviewKey(view[i]) == k;
      UpsertAt(objects, view, PreviewKey, InsertPreview(now), UpdatePreview(now), i);
    } else {
      UpsertElsewhere(objects, view, PreviewKey, InsertPreview(now), UpdatePreview(now), k);
    }
  }

  /** No row disappears, no pin is cleared, and a row outside both views is not touched at all. */
  lemma RepairKeepsRows(contents: seq<Content>, objects: Objects, now: Time, k: string)
    requires k in objects
    ensures var t := RepairedObjects(contents, objects, now);
            && k in t && Kept(objects[k], t[k])
            && (!IsLive(contents, k) && !HasKey(PreviewView(contents), PreviewKey, k) ==> t[k] == objects[k])
  {
    var middle := RepairedContents(contents, objects, now);
    ContentsKeep(contents, objects, now, k);
    hide RepairedContents, RepairedPreviews, IsLive, PreviewView;
    PreviewsKeep(contents, middle, now, k);
    if !HasKey(PreviewView(contents), PreviewKey, k) { PreviewsElsewhere(contents, middle, now, k); }
  }

  lemma ReferencesElsewhere(contents: seq<Content>, refs: RefTable, now: Time, k: RefKey)
    requires !HasKey(ReferenceView(contents), ReferenceKey, k)
    ensures k in RepairedReferences(contents, refs, now) <==> k in refs
    ensures k in refs ==> RepairedReferences(contents, refs, now)[k] == refs[k]
  {
    hide ReferenceView;
    UpsertElsewhere(refs, ReferenceView(contents), ReferenceKey, InsertReference(now), UpdateReference(now), k);
  }

  // ---------------------------------------------------------------- repairing again

  ghost predicate SameButTime(a: Object, b: Object) {
    a.(updatedAt := b.updatedAt) == b
  }

  lemma ContentsAt(contents: seq<Content>, objects: Objects, now: Time, i: nat)
    requires i < |ObjectView(contents)|
    ensures var r, t := ObjectView(contents)[i], RepairedContents(contents, objects, now);
            && r.storageId in t
            && t[r.storageId] == if r.storageId in objects then UpdateObject(now)(objects[r.storageId], r) else InsertObject(now)(r)
  {
    NoRowIsTouchedTwice(contents);
    hide ObjectView;
    UpsertAt(objects, ObjectView(contents), ObjectKey, InsertObject(now), UpdateObject(now), i);
  }

  lemma PreviewsAt(contents: seq<Content>, objects: Objects, now: Time, i: nat)
    requires i < |PreviewView(contents)|
    ensures var r, t := PreviewView(contents)[i], RepairedPreviews(contents, objects, now);
            var k := PreviewKey(r);
            k in t && t[k] == if k in objects then UpdatePreview(now)(objects[k], r) else InsertPreview(now)(r)
  {
    NoRowIsTouchedTwice(contents);
    hide PreviewView, PreviewKey;
    UpsertAt(objects, PreviewView(contents), PreviewKey, InsertPreview(now), UpdatePreview(now), i);
  }

  lemma ContentsElsewhere(contents: seq<Content>, objects: Objects, now: Time, k: string)
    requires !HasKey(ObjectView(contents), ObjectKey, k)
    ensures k in RepairedContents(contents, objects, now) <==> k in objects
    ensures k in objects ==> RepairedContents(contents, objects, now)[k] == objects[k]
  {
    hide ObjectView;
    UpsertElsewhere(objects, ObjectView(contents), ObjectKey, InsertObject(now), UpdateObject(now), k);
  }

  /** A second repair, at any later time, changes nothing but updatedAt: no row, no column, no pin. */
  lemma RepairIsIdempotent(contents: seq<Content>, objects: Objects, now: Time, later: Time, k: string)
    ensures var once := RepairedObjects(contents, objects, now);
            var twice := RepairedObjects(contents, once, later);
            (k in once <==> k in twice) && (k in once ==> SameButTime(once[k], twice[k]))
  {
    var m1 := RepairedContents(contents, objects, now);
    var o1 := RepairedPreviews(contents, m1, now);
    var m2 := RepairedContents(contents, o1, later);
    hide RepairedContents, RepairedPreviews, ObjectView, PreviewView, PreviewKey, WithPreview;
    if HasKey(ObjectView(contents), ObjectKey, k) {
      var i :| 0 <= i < |ObjectView(contents)| && ObjectView(contents)[i].storageId == k;
      NoPreviewOfContent(contents, i);
      ContentsAt(contents, objects, now, i);
      PreviewsElsewhere(contents, m1, now, k);
      ContentsAt(contents, o1, later, i);
      PreviewsElsewhere(contents, m2, later, k);
    } else {
      ContentsElsewhere(contents, o1, later, k);
      if HasKey(PreviewView(contents), PreviewKey, k) {
        var i :| 0 <= i < |PreviewView(contents)| && PreviewKey(PreviewView(contents)[i]) == k;
        PreviewsAt(contents, m1, now, i);
        PreviewsAt(contents, m2, later, i);
        PreviewTwice(NO_METADATA, PreviewView(contents)[i]);
        if k in m1 { PreviewTwice(m1[k].metadata, PreviewView(contents)[i]); }
      } else {
        PreviewsElsewhere(contents, m2, later, k);
      }
    }
  }

  lemma PreviewTwice(m: Metadata, r: PreviewRow)
    ensures WithPreview(WithPreview(m, r), r) == WithPreview(m, r)
  {}

  lemma ReferencesAreIdempotent(contents: seq<Content>, refs: RefTable, now: Time, later: Time, k: RefKey)
    ensures var once := RepairedReferences(contents, refs, now);
            var twice := RepairedReferences(contents, once, later);
            (k in once <==> k in twice) && (k in once ==> once[k].(updatedAt := twice[k].updatedAt) == twice[k])
  {
    var once := RepairedReferences(contents, refs, now);
    var view := ReferenceView(contents);
    NoRowIsTouchedTwice(contents);
    hide ReferenceView, Stored;
    if HasKey(view, ReferenceKey, k) {
      var i :| 0 <= i < |view| && ReferenceKey(view[i]) == k;
      UpsertAt(refs, view, ReferenceKey, InsertReference(now), UpdateReference(now), i);
      UpsertAt(once, view, ReferenceKey, InsertReference(later), UpdateReference(later), i);
    } else {
      ReferencesElsewhere(contents, once, later, k);
    }
  }

  // ---------------------------------------------------------------- what the repaired rows say

  /** `target` is the preview of this content that has this name, column and size. */
  predicate IsPreview(c: Content, target: string, column: string, name: string, size: Option<int>) {
    var m := c.metadata;
    || (m.large == Some(target) && column == "largePreviewStorageId" && name == "large" && size == m.largeSize)
    || (m.medium == Some(target) && column == "mediumPreviewStorageId" && name == "medium" && size == m.mediumSize)
    || (m.small == Some(target) && column == "smallPreviewStorageId" && name == "small" && size == m.smallSize)
  }

  predicate HasPreview(c: Content, target: string) {
    c.metadata.large == Some(target) || c.metadata.medium == Some(target) || c.metadata.small == Some(target)
  }

  /** The candidate row `r` is a preview of the content `c`. */
  predicate RowShows(c: Content, r: PreviewRow) {
    && r.source == c.storageId && r.contentId == c.id && r.storageType == c.metadata.storageType
    && r.mimeType == c.metadata.previewMimeType && r.extension == c.metadata.previewExtension
    && (r.target.Some? ==> IsPreview(c, r.target.value, r.column, r.name, r.size))
  }

  lemma {:induction false} SelectShows(contents: seq<Content>, order: int, r: PreviewRow) returns (i: nat)
    requires r in PreviewSelect(contents, order)
    ensures i < |contents| && NotDeleted(contents[i]) && RowShows(contents[i], r)
  {
    var last := |contents| - 1;
    hide IsPreview;
    if NotDeleted(contents[last]) && r == PreviewOf(contents[last], order) {
      i := last;
      PreviewOfShows(contents[last], order);
    } else {
      i := SelectShows(contents[..last], order, r);
    }
  }

  lemma PreviewOfShows(c: Content, order: int)
    ensures RowShows(c, PreviewOf(c, order))
  {}

  lemma {:induction false} SelectHas(contents: seq<Content>, order: int, j: nat)
    requires j < |contents| && NotDeleted(contents[j])
    ensures PreviewOf(contents[j], order) in PreviewSelect(contents, order)
  {
    hide PreviewOf;
    if j < |contents| - 1 { SelectHas(contents[..|contents| - 1], order, j); }
  }

  lemma RowsShow(contents: seq<Content>, r: PreviewRow) returns (i: nat)
    requires r in PreviewRows(contents)
    ensures i < |contents| && NotDeleted(contents[i]) && RowShows(contents[i], r)
  {
    hide PreviewSelect, RowShows;
    if r in PreviewSelect(contents, 1) {
      i := SelectShows(contents, 1, r);
    } else if r in PreviewSelect(contents, 2) {
      i := SelectShows(contents, 2, r);
    } else {
      i := SelectShows(contents, 3, r);
    }
  }

  lemma PreviewHasRow(contents: seq<Content>, j: nat, target: string) returns (r: PreviewRow)
    requires j < |contents| && NotDeleted(contents[j]) && HasPreview(contents[j], target)
    ensures r in PreviewRows(contents) && r.source == contents[j].storageId && r.target == Some(target)
  {
    var m := contents[j].metadata;
    var order := if m.large == Some(target) then 1 else if m.medium == Some(target) then 2 else 3;
    r := PreviewOf(contents[j], order);
    SelectHas(contents, order, j);
    hide PreviewSelect;
  }

  /** A key of the reference view belongs to a preview of a content that is not deleted, and that is what the repaired row says. */
  lemma ReferenceSaysPreview(contents: seq<Content>, refs: RefTable, now: Time, k: RefKey) returns (i: nat)
    requires HasKey(ReferenceView(contents), ReferenceKey, k)
    ensures var t := RepairedReferences(contents, refs, now);
            && i < |contents| && NotDeleted(contents[i]) && contents[i].storageId == Some(k.source)
            && k in t && t[k].name.Some? && t[k].source.Some?
            && IsPreview(contents[i], k.target, t[k].source.value, t[k].name.value, t[k].targetSize)
  {
    var view := ReferenceView(contents);
    var n :| 0 <= n < |view| && ReferenceKey(view[n]) == k;
    NoRowIsTouchedTwice(contents);
    ReferenceViewComesFrom(contents);
    RowsOfViews(contents);
    assert view[n] in References(PreviewRows(contents));
    i := RowsShow(contents, view[n]);
    hide ReferenceView, PreviewRows, References, IsPreview, Stored, NotDeleted;
    UpsertAt(refs, view, ReferenceKey, InsertReference(now), UpdateReference(now), n);
  }

  lemma PreviewViewComesFrom(contents: seq<Content>, n: nat)
    requires n < |PreviewView(contents)|
    ensures PreviewView(contents)[n] in PreviewRows(contents)
  {
    ViewsAreDistinct(contents);
    hide PreviewRows, PreviewView, ObjectView, ReferenceView, LiveRows, DistinctKeys;
    assert PreviewView(contents)[n] in PureTargets(contents, References(PreviewRows(contents)));
  }

  /** The repaired storage object of a pure preview has type, mime type, extension and size of one content's preview. */
  lemma ObjectSaysPreview(contents: seq<Content>, objects: Objects, now: Time, target: string) returns (i: nat)
    requires HasKey(PreviewView(contents), PreviewKey, target)
    ensures var t := RepairedObjects(contents, objects, now);
            && i < |contents| && NotDeleted(contents[i]) && target in t && HasPreview(contents[i], target)
            && t[target].metadata.storageType == contents[i].metadata.storageType
            && t[target].metadata.mimeType == contents[i].metadata.previewMimeType
            && t[target].metadata.extension == contents[i].metadata.previewExtension
            && exists column: string, name: string :: IsPreview(contents[i], target, column, name, t[target].metadata.size)
  {
    var view := PreviewView(contents);
    var n :| 0 <= n < |view| && PreviewKey(view[n]) == target;
    RowsOfViews(contents);
    PreviewViewComesFrom(contents, n);
    i := RowsShow(contents, view[n]);
    assert IsPreview(contents[i], target, view[n].column, view[n].name, view[n].size);
    assert HasPreview(contents[i], target);
    hide PreviewView, PreviewRows, IsPreview, HasPreview, NotDeleted, RepairedContents;
    PreviewsAt(contents, RepairedContents(contents, objects, now), now, n);
  }

  lemma {:induction false} TargetsHold(contents: seq<Content>, rows: seq<PreviewRow>, r: PreviewRow)
    requires r in rows && r.target.Some? && !IsLive(contents, r.target.value)
    ensures r in PureTargets(contents, rows)
  {
    if rows[|rows| - 1] != r { TargetsHold(contents, rows[..|rows| - 1], r); }
  }

  lemma HasKeyOf<R(!new), K>(view: seq<R>, rows: seq<R>, key: R -> K, first: (R, R) -> bool, r: R)
    requires IsDistinctOn(view, rows, key, first) && r in rows
    ensures HasKey(view, key, key(r))
  {
    assert Answers(view, key, first, r);
  }

  /** After the repair every preview of a content that is not deleted is a storage object and is referenced from its content. */
  lemma EveryPreviewIsRegistered(contents: seq<Content>, objects: Objects, refs: RefTable, now: Time, j: nat, target: string)
    requires j < |contents| && NotDeleted(contents[j]) && contents[j].storageId.Some?
    requires HasPreview(contents[j], target) && contents[j].storageId != Some(target)
    ensures target in RepairedObjects(contents, objects, now)
    ensures RefKey(contents[j].storageId.value, target, PREVIEW) in RepairedReferences(contents, refs, now)
  {
    var r := PreviewHasRow(contents, j, target);
    ReferencesHold(PreviewRows(contents), r);
    ViewsAreDistinct(contents);
    HasKeyOf(ReferenceView(contents), References(PreviewRows(contents)), ReferenceKey, Earlier, r);
    var k := RefKey(contents[j].storageId.value, target, PREVIEW);
    assert ReferenceKey(r) == k;
    TargetIsObject(contents, objects, now, r);
    hide ReferenceView, References, PreviewRows, RepairedReferences, RepairedObjects, HasKey, IsPreview;
    var _ := ReferenceSaysPreview(contents, refs, now, k);
  }

  lemma TargetIsObject(contents: seq<Content>, objects: Objects, now: Time, r: PreviewRow)
    requires r in References(PreviewRows(contents)) && r.target.Some?
    ensures r.target.value in RepairedObjects(contents, objects, now)
  {
    var target := r.target.value;
    ObjectsAreSound(contents, objects, now);
    ViewsAreDistinct(contents);
    ObjectViewIsLive(contents, target);
    hide ObjectView, PreviewView, References, PreviewRows, RepairedObjects, IsLive, ObjectDiffers, PreviewDiffers, IsDistinctOn;
    if !IsLive(contents, target) {
      TargetsHold(contents, References(PreviewRows(contents)), r);
      HasKeyOf(PreviewView(contents), PureTargets(contents, References(PreviewRows(contents))), PreviewKey, Earlier, r);
    }
  }

  // ---------------------------------------------------------------- the script over a database

  datatype Statement = Applied | TouchedTwice | ValueTooLong

  /** Refused: `--repair` without a confirmation. Failed: a statement threw. */
  datatype Outcome = Refused | Failed | Reported(report: Report, exitCode: int)

  class Database {
    const contents: seq<Content>
    var objects: Objects
    var refs: RefTable

    constructor (contents: seq<Content>, objects: Objects, refs: RefTable)
      ensures this.contents == contents && this.objects == objects && this.refs == refs
    {
      this.contents, this.objects, this.refs := contents, objects, refs;
    }

    method RepairStorageObjects(now: Time) returns (s: Statement)
      modifies this`objects
      ensures s == Applied && objects == RepairedContents(contents, old(objects), now)
    {
      NoRowIsTouchedTwice(contents);
      hide ObjectView, Upsert, DistinctKeys;
      var t := InsertOnConflict(objects, ObjectView(contents), ObjectKey, InsertObject(now), UpdateObject(now));
      if t == None { return TouchedTwice; }
      objects := t.value;
      s := Applied;
    }

    method RepairPreviewStorageObjects(now: Time) returns (s: Statement)
      modifies this`objects
      ensures s == Applied && objects == RepairedPreviews(contents, old(objects), now)
    {
      NoRowIsTouchedTwice(contents);
      hide PreviewView, Upsert, DistinctKeys;
      var t := InsertOnConflict(objects, PreviewView(contents), PreviewKey, InsertPreview(now), UpdatePreview(now));
      if t == None { return TouchedTwice; }
      objects := t.value;
      s := Applied;
    }

    method RepairPreviewStorageObjectReferences(now: Time) returns (s: Statement)
      modifies this`refs
      ensures s == if AllStorable(contents) then Applied else ValueTooLong
      ensures refs == if s.Applied? then RepairedReferences(contents, old(refs), now) else old(refs)
    {
      NoRowIsTouchedTwice(contents);
      hide ReferenceView, Upsert, Storable, DistinctKeys, InsertReference, UpdateReference;
      var view := ReferenceView(contents);
      for i := 0 to |view|
        invariant forall j :: 0 <= j < i ==> Storable(view[j])
      {
        if !Storable(view[i]) { return ValueTooLong; }
      }
      var t := InsertOnConflict(refs, view, ReferenceKey, InsertReference(now), UpdateReference(now));
      if t == None { return TouchedTwice; }
      refs := t.value;
      s := Applied;
    }

    /**
     The whole script. Without issues, or without --repair, nothing is written. A repair that cannot store
     a reference throws after the storage objects have been written; otherwise the second report is clean
     exactly when every type fits.
     */
    method Run(repair: bool, confirmed: bool, now: Time) returns (r: Outcome)
      modifies this`objects, this`refs
      ensures var issues := HasIssues(ReportOf(contents, old(objects), old(refs)));
              if repair && !confirmed then r == Refused && objects == old(objects) && refs == old(refs)
              else if !(repair && issues) then
                objects == old(objects) && refs == old(refs) && r.Reported? && (r.exitCode == 1 <==> issues)
              else
                && objects == RepairedObjects(contents, old(objects), now)
                && refs == (if AllStorable(contents) then RepairedReferences(contents, old(refs), now) else old(refs))
                && (r.Failed? <==> !AllStorable(contents))
      ensures r.Reported? ==> r.report == ReportOf(contents, objects, refs) && r.exitCode == if HasIssues(r.report) then 1 else 0
      ensures repair && confirmed && HasIssues(ReportOf(contents, old(objects), old(refs))) ==>
              ((r.Reported? && r.exitCode == 0) <==> AllFit(contents))
    {
      FitMeansStorable();
      hide ReportOf, AllStorable, AllFit, RepairedReferences, RepairedPreviews, RepairedContents, HasIssues;
      if repair && !confirmed {
        return Refused;
      }
      var report := ReportOf(contents, objects, refs);
      if repair && HasIssues(report) {
        var s := RepairStorageObjects(now);
        if !s.Applied? { return Failed; }
        s := RepairPreviewStorageObjects(now);
        if !s.Applied? { return Failed; }
        s := RepairPreviewStorageObjectReferences(now);
        if !s.Applied? { return Failed; }
        RepairIsSound(contents, old(objects), old(refs), now);
        report := ReportOf(contents, objects, refs);
      }
      r := Reported(report, if HasIssues(report) then 1 else 0);
    }

    lemma FitMeansStorable()
      ensures AllFit(contents) ==> AllStorable(contents)
    {
      hide ReferenceView;
    }
  }
}

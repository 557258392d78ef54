/** Page translation: snapshot the text nodes, overwrite them with translations, put them back. */
module PageTranslate {
  import opened Text
  import opened DomPath

  datatype Mode = Original | Translated | Dual

  datatype Segment = Segment(id: string, path: string, originalText: string)
  datatype RestoreEntry = RestoreEntry(segmentId: string, originalText: string, path: string)
  datatype SegmentResult = SegmentResult(id: string, translatedText: string)
  datatype AppliedSegment = AppliedSegment(id: string, displayText: string, originalText: string)

  type Table = map<string, RestoreEntry>
  type Content = map<Loc, string>

  // ----- Segments -----

  /** `makeSegment`; `hash` stands for the 32-bit hash and may collide. */
  function MakeSegment(hash: string -> string, path: string, text: string): Option<Segment> {
    var trimmed := Trim(Collapse(text));
    if trimmed == "" then None else Some(Segment("seg_" + hash(path + ":" + hash(trimmed)), path, trimmed))
  }

  ghost predicate PageValid(doc: Doc, content: Content) {
    && doc.body.Element? && CleanTags(doc.body)
    && content.Keys == set loc | loc in Locs(doc.body, false)
  }

  lemma PageLoc(doc: Doc, content: Content, loc: Loc)
    requires PageValid(doc, content)
    ensures loc in content ==> ValidLoc(doc.body, loc)
    ensures loc in Locs(doc.body, true) ==> loc in content
  {
    if loc in content {
      LocsValid(doc.body, false, loc);
    }
    if loc in Locs(doc.body, true) {
      CollectedIsWalked(doc.body, loc);
    }
  }

  /** The restore entry that a snapshot of the node at `loc` makes. */
  ghost predicate EntryOf(doc: Doc, hash: string -> string, content: Content, loc: Loc, e: RestoreEntry)
    requires PageValid(doc, content) && loc in content
  {
    PageLoc(doc, content, loc);
    var seg := MakeSegment(hash, Path(doc, loc), content[loc]);
    seg.Some? && e == RestoreEntry(seg.value.id, content[loc], Path(doc, loc))
  }

  /** The segment sent to the translator for a restore entry: its white space normalized. */
  function SegmentOf(e: RestoreEntry): Segment {
    Segment(e.segmentId, e.path, Trim(Collapse(e.originalText)))
  }

  /** `collectTextSegments` on the body. */
  method CollectTextSegments(doc: Doc, hash: string -> string, content: Content)
      returns (segments: seq<Segment>, restore: seq<RestoreEntry>)
    requires PageValid(doc, content)
    ensures restore == Snapshot(doc, hash, content, Locs(doc.body, true))
    ensures |segments| == |restore| && forall i :: 0 <= i < |segments| ==> segments[i] == SegmentOf(restore[i])
  {
    hide Path, Trim, Collapse, ValidLoc, Locs;
    segments, restore := [], [];
    var locs := Locs(doc.body, true);
    for k := 0 to |locs|
      invariant restore == Snapshot(doc, hash, content, locs[..k])
      invariant |segments| == |restore| && forall i :: 0 <= i < |segments| ==> segments[i] == SegmentOf(restore[i])
    {
      var loc := locs[k];
      PageLoc(doc, content, loc);
      assert locs[..k + 1][..k] == locs[..k];
      var path := Path(doc, loc);
      var seg := MakeSegment(hash, path, content[loc]);
      if seg.Some? {
        segments := segments + [seg.value];
        restore := restore + [RestoreEntry(seg.value.id, content[loc], path)];
      }
    }
    assert locs[..|locs|] == locs;
  }

  /** The restore entries of the collected nodes, in document order. */
  ghost function Snapshot(doc: Doc, hash: string -> string, content: Content, locs: seq<Loc>): seq<RestoreEntry>
    requires PageValid(doc, content) && forall loc :: loc in locs ==> loc in Locs(doc.body, true)
  {
    if locs == [] then [] else
      var n := |locs| - 1;
      PageLoc(doc, content, locs[n]);
      var seg := MakeSegment(hash, Path(doc, locs[n]), content[locs[n]]);
      Snapshot(doc, hash, content, locs[..n])
      + (if seg.None? then [] else [RestoreEntry(seg.value.id, content[locs[n]], Path(doc, locs[n]))])
  }

  lemma {:induction false} SnapshotEntries(doc: Doc, hash: string -> string, content: Content, locs: seq<Loc>,
                                           e: RestoreEntry)
    requires PageValid(doc, content) && forall loc :: loc in locs ==> loc in Locs(doc.body, true)
    requires e in Snapshot(doc, hash, content, locs)
    ensures exists loc :: loc in locs && loc in content && EntryOf(doc, hash, content, loc, e)
  {
    var n := |locs| - 1;
    PageLoc(doc, content, locs[n]);
    if e in Snapshot(doc, hash, content, locs[..n]) {
      SnapshotEntries(doc, hash, content, locs[..n], e);
    } else {
      assert locs[n] in content && EntryOf(doc, hash, content, locs[n], e);
    }
  }

  // ----- The restore table -----

  function TableOf(entries: seq<RestoreEntry>): Table {
    if entries == [] then map[] else
      var e := entries[|entries| - 1];
      TableOf(entries[..|entries| - 1])[e.segmentId := e]
  }

  ghost predicate UniquePaths(t: Table) {
    forall i, j :: i in t && j in t && t[i].path == t[j].path ==> i == j
  }

  ghost predicate HasPath(t: Table, id: string, path: string) {
    id in t && t[id].path == path
  }

  /** The entry for a path, if the table has one. */
  ghost function EntryAt(t: Table, path: string): Option<RestoreEntry> {
    if exists id :: HasPath(t, id, path) then
      var id :| HasPath(t, id, path);
      Some(t[id])
    else None
  }

  lemma EntryAtKey(t: Table, id: string)
    requires UniquePaths(t) && id in t
    ensures EntryAt(t, t[id].path) == Some(t[id])
  {
    assert HasPath(t, id, t[id].path);
  }

  /** The ids in the order of their first entries: the order in which a JavaScript map iterates. */
  function IdOrder(entries: seq<RestoreEntry>): seq<string> {
    if entries == [] then [] else
      var before, id := IdOrder(entries[..|entries| - 1]), entries[|entries| - 1].segmentId;
      if id in before then before else before + [id]
  }

  /** The original of the last id whose entry is on the path. */
  ghost function LastOnPath(t: Table, ids: seq<string>, path: string): Option<string>
    requires forall id :: id in ids ==> id in t
  {
    if ids == [] then None
    else
      var last := t[ids[|ids| - 1]];
      if last.path == path then Some(last.originalText) else LastOnPath(t, ids[..|ids| - 1], path)
  }

  lemma {:induction false} LastOnPathHas(t: Table, ids: seq<string>, path: string)
    requires forall id :: id in ids ==> id in t
    ensures LastOnPath(t, ids, path).Some? <==> exists id :: id in ids && t[id].path == path
    ensures LastOnPath(t, ids, path).Some? ==>
              exists id :: id in ids && t[id].path == path && LastOnPath(t, ids, path).value == t[id].originalText
  {
    if ids != [] {
      LastOnPathHas(t, ids[..|ids| - 1], path);
    }
  }

  class RestoreTable {
    var byId: Table
    var order: seq<string>

    ghost predicate Valid()
      reads this
    {
      forall id :: id in byId <==> id in order
    }

    constructor (entries: seq<RestoreEntry>)
      ensures Valid() && byId == TableOf(entries) && order == IdOrder(entries)
    {
      byId, order := map[], [];
      new;
      for k := 0 to |entries|
        invariant Valid() && byId == TableOf(entries[..k]) && order == IdOrder(entries[..k])
      {
        assert entries[..k + 1][..k] == entries[..k];
        if entries[k].segmentId !in byId {
          order := order + [entries[k].segmentId];
        }
        byId := byId[entries[k].segmentId := entries[k]];
      }
      assert entries[..|entries|] == entries;
    }

    /** Path-keyed originals. */
    method OriginalsByPath() returns (m: map<string, string>)
      requires Valid()
      ensures forall p :: p in m <==> LastOnPath(byId, order, p).Some?
      ensures forall p :: p in m ==> m[p] == LastOnPath(byId, order, p).value
      ensures forall p :: p in m <==> EntryAt(byId, p).Some?
      ensures UniquePaths(byId) ==> forall p :: p in m ==> m[p] == EntryAt(byId, p).value.originalText
    {
      m := map[];
      for k := 0 to |order|
        invariant forall p :: p in m <==> LastOnPath(byId, order[..k], p).Some?
        invariant forall p :: p in m ==> m[p] == LastOnPath(byId, order[..k], p).value
      {
        assert order[..k + 1][..k] == order[..k];
        m := m[byId[order[k]].path := byId[order[k]].originalText];
      }
      assert order[..|order|] == order;
      forall p
        ensures p in m <==> EntryAt(byId, p).Some?
        ensures p in m && UniquePaths(byId) ==> m[p] == EntryAt(byId, p).value.originalText
      {
        OnPathIsEntry(byId, order, p);
      }
    }
  }

  lemma OnPathIsEntry(t: Table, ids: seq<string>, p: string)
    requires forall id :: id in t <==> id in ids
    ensures LastOnPath(t, ids, p).Some? <==> EntryAt(t, p).Some?
    ensures LastOnPath(t, ids, p).Some? && UniquePaths(t) ==>
              LastOnPath(t, ids, p).value == EntryAt(t, p).value.originalText
  {
    hide LastOnPath;
    LastOnPathHas(t, ids, p);
    if LastOnPath(t, ids, p).Some? {
      var id :| id in ids && t[id].path == p && LastOnPath(t, ids, p).value == t[id].originalText;
      assert HasPath(t, id, p);
      if UniquePaths(t) {
        EntryAtKey(t, id);
      }
    }
  }

  // ----- What is shown -----

  /** The text that `resolveDisplayText` gives a node. */
  function ResolveDisplayText(mode: Mode, original: string, translated: string): string {
    match mode
    case Original => original
    case Translated => translated
    case Dual => translated
  }

  function LastResult(results: seq<SegmentResult>, id: string): Option<string> {
    if results == [] then None
    else
      var r := results[|results| - 1];
      if r.id == id then Some(r.translatedText) else LastResult(results[..|results| - 1], id)
  }

  /** What an entry's node shows: the last result with its id, or its original where there is none. */
  function Display(mode: Mode, e: RestoreEntry, results: seq<SegmentResult>): string {
    var r := LastResult(results, e.segmentId);
    ResolveDisplayText(mode, e.originalText, if r.Some? then r.value else e.originalText)
  }

  /** Entries are filed under their own id. */
  ghost predicate Keyed(t: Table) {
    forall id :: id in t ==> t[id].segmentId == id
  }

  ghost predicate Applied(a: AppliedSegment, t: Table, mode: Mode, results: seq<SegmentResult>) {
    && a.id in t
    && a.displayText == Display(mode, t[a.id], results)
    && a.originalText == t[a.id].originalText
  }

  method BuildAppliedMap(mode: Mode, restore: RestoreTable, results: seq<SegmentResult>) returns (out: seq<AppliedSegment>)
    requires restore.Valid() && Keyed(restore.byId)
    ensures |out| == |restore.order|
    ensures forall k :: 0 <= k < |out| ==> out[k].id == restore.order[k] && Applied(out[k], restore.byId, mode, results)
  {
    var byId: map<string, string> := map[];
    for k := 0 to |results|
      invariant forall id :: id in byId <==> LastResult(results[..k], id).Some?
      invariant forall id :: id in byId ==> byId[id] == LastResult(results[..k], id).value
    {
      assert results[..k + 1][..k] == results[..k];
      byId := byId[results[k].id := results[k].translatedText];
    }
    assert results[..|results|] == results;
    out := [];
    for i := 0 to |restore.order|
      invariant |out| == i
      invariant forall k :: 0 <= k < i ==> out[k].id == restore.order[k] && Applied(out[k], restore.byId, mode, results)
    {
      var id := restore.order[i];
      var entry := restore.byId[id].originalText;
      var translated := if id in byId then byId[id] else entry;
      out := out + [AppliedSegment(id, ResolveDisplayText(mode, entry, translated), entry)];
    }
  }

  /** The page with every node of the table showing what `mode` and `results` say, and every other node untouched. */
  ghost function Rewritten(doc: Doc, content: Content, t: Table, mode: Mode, results: seq<SegmentResult>): Content
    requires PageValid(doc, content)
  {
    map loc | loc in content :: ShownAt(doc, content, t, mode, results, loc)
  }

  ghost function ShownAt(doc: Doc, content: Content, t: Table, mode: Mode, results: seq<SegmentResult>, loc: Loc): string
    requires PageValid(doc, content) && loc in content
  {
    PageLoc(doc, content, loc);
    match EntryAt(t, Path(doc, loc))
    case Some(e) => Display(mode, e, results)
    case None => content[loc]
  }

  // ----- The controller as a transition system -----

  datatype State = State(mode: Mode, table: Table, results: seq<SegmentResult>, content: Content)

  /** `translateNow` up to its await, its success with any batch, its failure; `setMode`; `restore`. */
  datatype Event =
    | Begin
    | Complete(batch: seq<SegmentResult>)
    | Fail
    | SetMode(mode: Mode)
    | Restore

  ghost function Apply(doc: Doc, s: State): State
    requires PageValid(doc, s.content)
  {
    if s.mode == Original then s else s.(content := Rewritten(doc, s.content, s.table, s.mode, s.results))
  }

  ghost function PutBack(doc: Doc, s: State): State
    requires PageValid(doc, s.content)
  {
    s.(content := Rewritten(doc, s.content, s.table, Original, s.results), mode := Original)
  }

  ghost function Step(doc: Doc, hash: string -> string, s: State, e: Event): (s': State)
    requires PageValid(doc, s.content)
    ensures PageValid(doc, s'.content)
  {
    match e
    case Begin => s.(table := TableOf(Snapshot(doc, hash, s.content, Locs(doc.body, true))))
    case Complete(batch) => Apply(doc, s.(results := batch, mode := Translated))
    case Fail => s.(results := [])
    case SetMode(m) => if m == Original then PutBack(doc, s.(mode := m)) else Apply(doc, s.(mode := m))
    case Restore => PutBack(doc, s)
  }

  ghost predicate TableValid(t: Table) {
    Keyed(t) && UniquePaths(t)
  }

  /** A page and its text contents, which the controller overwrites. */
  class Page {
    const doc: Doc
    var content: Content

    constructor (doc: Doc, content: Content)
      ensures this.doc == doc && this.content == content
    {
      this.doc := doc;
      this.content := content;
    }

    /** The tree walk that `applyToDom` and `restoreOriginal` share: a text node whose path has a text gets it. */
    method Overwrite(displayByPath: map<string, string>, originalsByPath: map<string, string>, mode: Mode,
                     onlyWhenDifferent: bool)
      requires PageValid(doc, content)
      requires displayByPath.Keys <= originalsByPath.Keys
      requires onlyWhenDifferent ==> mode != Original
      modifies this
      ensures content.Keys == old(content).Keys
      ensures forall loc :: loc in content ==> content[loc] == NewText(old(content), displayByPath, originalsByPath, mode, loc)
    {
      ghost var before := content;
      var locs := Locs(doc.body, false);
      for k := 0 to |locs|
        invariant content.Keys == before.Keys
        invariant forall loc :: loc in before && loc !in locs[..k] ==> content[loc] == before[loc]
        invariant forall loc :: loc in locs[..k] ==>
                    content[loc] == NewText(before, displayByPath, originalsByPath, mode, loc)
      {
        var loc := locs[k];
        PageLoc(doc, before, loc);
        var path := Path(doc, loc);
        assert locs[..k + 1] == locs[..k] + [loc];
        if path in displayByPath && (!onlyWhenDifferent || content[loc] != displayByPath[path]) {
          var display := displayByPath[path];
          content := content[loc := ResolveDisplayText(mode, originalsByPath[path], display)];
        }
      }
      assert locs[..|locs|] == locs;
    }

    ghost function NewText(content: Content, displayByPath: map<string, string>, originalsByPath: map<string, string>,
                           mode: Mode, loc: Loc): string
      requires PageValid(doc, content) && loc in content
      requires displayByPath.Keys <= originalsByPath.Keys
    {
      PageLoc(doc, content, loc);
      var path := Path(doc, loc);
      if path in displayByPath then ResolveDisplayText(mode, originalsByPath[path], displayByPath[path])
      else content[loc]
    }
  }

  class Controller {
    const page: Page
    const hash: string -> string
    var mode: Mode
    var restore: RestoreTable
    var results: seq<SegmentResult>

    ghost predicate Valid()
      reads this, page, restore
    {
      PageValid(page.doc, page.content) && restore.Valid() && TableValid(restore.byId)
    }

    ghost function Abstract(): State
      reads this, page, restore
    {
      State(mode, restore.byId, results, page.content)
    }

    constructor (page: Page, hash: string -> string)
      requires PageValid(page.doc, page.content)
      ensures Valid() && this.page == page && this.hash == hash
      ensures Abstract() == State(Original, map[], [], page.content)
    {
      this.page, this.hash := page, hash;
      mode, results := Original, [];
      restore := new RestoreTable([]);
    }

    method ApplyToDom()
      requires Valid()
      modifies page
      ensures Valid() && Abstract() == Apply(page.doc, old(Abstract()))
    {
      if mode == Original {
        return;
      }
      var applied := BuildAppliedMap(mode, restore, results);
      var displayByPath := DisplayByPath(applied);
      var originalsByPath := restore.OriginalsByPath();
      page.Overwrite(displayByPath, originalsByPath, mode, true);
      assert page.content == Rewritten(page.doc, old(page.content), restore.byId, mode, results);
    }

    method DisplayByPath(applied: seq<AppliedSegment>) returns (m: map<string, string>)
      requires Valid() && |applied| == |restore.order|
      requires forall k :: 0 <= k < |applied| ==>
                 applied[k].id == restore.order[k] && Applied(applied[k], restore.byId, mode, results)
      ensures forall p :: p in m <==> EntryAt(restore.byId, p).Some?
      ensures forall p :: p in m ==> m[p] == Display(mode, EntryAt(restore.byId, p).value, results)
    {
      m := map[];
      for k := 0 to |applied|
        invariant forall p :: p in m ==> EntryAt(restore.byId, p).Some?
        invariant forall p :: p in m ==> m[p] == Display(mode, EntryAt(restore.byId, p).value, results)
        invariant forall j :: 0 <= j < k ==> restore.byId[applied[j].id].path in m
      {
        var seg := applied[k];
        EntryAtKey(restore.byId, seg.id);
        m := m[restore.byId[seg.id].path := seg.displayText];
      }
      forall p | EntryAt(restore.byId, p).Some? ensures p in m {
        var id :| HasPath(restore.byId, id, p);
        var k :| 0 <= k < |restore.order| && restore.order[k] == id;
      }
    }

    /** `restoreOriginal`. */
    method RestoreOriginal()
      requires Valid()
      modifies this`mode, page
      ensures Valid() && Abstract() == Step(page.doc, hash, old(Abstract()), Restore)
    {
      var originalsByPath := restore.OriginalsByPath();
      page.Overwrite(originalsByPath, originalsByPath, Original, false);
      assert page.content == Rewritten(page.doc, old(page.content), restore.byId, Original, results);
      mode := Original;
    }

    /** `setMode`. */
    method ChangeMode(m: Mode)
      requires Valid()
      modifies this`mode, page
      ensures Valid() && Abstract() == Step(page.doc, hash, old(Abstract()), SetMode(m))
    {
      mode := m;
      if m == Original {
        RestoreOriginal();
      } else {
        ApplyToDom();
      }
    }

    /** `translateNow`, up to the call of the translator. */
    method BeginTranslation() returns (segments: seq<Segment>)
      requires Valid()
      modifies this`restore
      ensures Valid() && Abstract() == Step(page.doc, hash, old(Abstract()), Begin)
      ensures segments == Segments(page.doc, hash, page.content)
    {
      var entries;
      segments, entries := CollectTextSegments(page.doc, hash, page.content);
      restore := new RestoreTable(entries);
      SnapshotTable(page.doc, hash, page.content);
    }

    /** `translateNow`, after the translator has answered. */
    method CompleteTranslation(batch: seq<SegmentResult>)
      requires Valid()
      modifies this`results, this`mode, page
      ensures Valid() && Abstract() == Step(page.doc, hash, old(Abstract()), Complete(batch))
    {
      results := batch;
      mode := Translated;
      ApplyToDom();
    }

    /** `translateNow`, after the translator has failed. */
    method FailTranslation()
      requires Valid()
      modifies this`results
      ensures Valid() && Abstract() == Step(page.doc, hash, old(Abstract()), Fail)
    {
      results := [];
    }
  }

  // ----- Restoring over whole runs -----

  lemma {:induction false} TableEntries(entries: seq<RestoreEntry>)
    ensures Keyed(TableOf(entries))
    ensures forall id :: id in TableOf(entries) ==> TableOf(entries)[id] in entries
  {
    if entries != [] {
      TableEntries(entries[..|entries| - 1]);
    }
  }

  /** The table a snapshot makes knows, for a path, only the node with that path. */
  lemma SnapshotAt(doc: Doc, hash: string -> string, content: Content, id: string, loc: Loc)
    requires PageValid(doc, content) && loc in content && ValidLoc(doc.body, loc)
    requires HasPath(TableOf(Snapshot(doc, hash, content, Locs(doc.body, true))), id, Path(doc, loc))
    ensures EntryOf(doc, hash, content, loc, TableOf(Snapshot(doc, hash, content, Locs(doc.body, true)))[id])
  {
    var locs := Locs(doc.body, true);
    var entries := Snapshot(doc, hash, content, locs);
    TableEntries(entries);
    var e := TableOf(entries)[id];
    SnapshotEntries(doc, hash, content, locs, e);
    var loc' :| loc' in locs && loc' in content && EntryOf(doc, hash, content, loc', e);
    PageLoc(doc, content, loc');
    PathInjective(doc, loc, loc');
  }

  lemma SnapshotTable(doc: Doc, hash: string -> string, content: Content)
    requires PageValid(doc, content)
    ensures TableValid(TableOf(Snapshot(doc, hash, content, Locs(doc.body, true))))
  {
    var locs := Locs(doc.body, true);
    var entries := Snapshot(doc, hash, content, locs);
    var t := TableOf(entries);
    TableEntries(entries);
    forall i, j | i in t && j in t && t[i].path == t[j].path ensures i == j {
      SnapshotEntries(doc, hash, content, locs, t[i]);
      var loc :| loc in locs && loc in content && EntryOf(doc, hash, content, loc, t[i]);
      PageLoc(doc, content, loc);
      SnapshotAt(doc, hash, content, j, loc);
    }
  }

  /** Every node either is in the table with its snapshot as the original, or still has its snapshot's text. */
  ghost predicate Tracks(doc: Doc, s: State, snapshot: Content) {
    && PageValid(doc, s.content) && s.content.Keys == snapshot.Keys
    && forall loc :: loc in s.content ==> TracksAt(doc, s, snapshot, loc)
  }

  ghost predicate TracksAt(doc: Doc, s: State, snapshot: Content, loc: Loc)
    requires PageValid(doc, s.content) && loc in s.content && loc in snapshot
  {
    PageLoc(doc, s.content, loc);
    match EntryAt(s.table, Path(doc, loc))
    case Some(e) => e.originalText == snapshot[loc]
    case None => s.content[loc] == snapshot[loc]
  }

  lemma BeginTracks(doc: Doc, hash: string -> string, s: State)
    requires PageValid(doc, s.content)
    ensures Tracks(doc, Step(doc, hash, s, Begin), s.content)
  {
    var s' := Step(doc, hash, s, Begin);
    forall loc | loc in s'.content ensures TracksAt(doc, s', s.content, loc) {
      PageLoc(doc, s.content, loc);
      var path := Path(doc, loc);
      if exists id :: HasPath(s'.table, id, path) {
        forall id | HasPath(s'.table, id, path) ensures s'.table[id].originalText == s.content[loc] {
          SnapshotAt(doc, hash, s.content, id, loc);
        }
      }
    }
  }

  lemma {:induction false} StepTracks(doc: Doc, hash: string -> string, s: State, e: Event, snapshot: Content)
    requires Tracks(doc, s, snapshot) && !e.Begin?
    ensures Tracks(doc, Step(doc, hash, s, e), snapshot)
  {
    hide Path, LastResult, EntryAt, ValidLoc, Locs;
    var s' := Step(doc, hash, s, e);
    forall loc | loc in s'.content ensures TracksAt(doc, s', snapshot, loc) {
      assert TracksAt(doc, s, snapshot, loc);
      PageLoc(doc, s.content, loc);
    }
  }

  lemma RestoreTracked(doc: Doc, hash: string -> string, s: State, snapshot: Content)
    requires Tracks(doc, s, snapshot)
    ensures Step(doc, hash, s, Restore).content == snapshot
    ensures var s' := Step(doc, hash, s, Restore); s'.mode == Original && s'.table == s.table && s'.results == s.results
  {
    var s' := Step(doc, hash, s, Restore);
    forall loc | loc in s'.content ensures s'.content[loc] == snapshot[loc] {
      assert TracksAt(doc, s, snapshot, loc);
      PageLoc(doc, s.content, loc);
    }
  }

  ghost function Run(doc: Doc, hash: string -> string, s: State, events: seq<Event>): (s': State)
    requires PageValid(doc, s.content)
    ensures PageValid(doc, s'.content)
  {
    if events == [] then s else
      var n := |events| - 1;
      Step(doc, hash, Run(doc, hash, s, events[..n]), events[n])
  }

  lemma {:induction false} RunTracks(doc: Doc, hash: string -> string, s: State, events: seq<Event>, snapshot: Content)
    requires Tracks(doc, s, snapshot)
    requires forall e :: e in events ==> !e.Begin?
    ensures Tracks(doc, Run(doc, hash, s, events), snapshot)
  {
    if events != [] {
      var n := |events| - 1;
      RunTracks(doc, hash, s, events[..n], snapshot);
      StepTracks(doc, hash, Run(doc, hash, s, events[..n]), events[n], snapshot);
    }
  }

  lemma {:induction false} RunConcat(doc: Doc, hash: string -> string, s: State, before: seq<Event>, after: seq<Event>)
    requires PageValid(doc, s.content)
    ensures Run(doc, hash, s, before + after) == Run(doc, hash, Run(doc, hash, s, before), after)
  {
    hide Step, PageValid;
    if after == [] {
      assert before + after == before;
    } else {
      var n := |after| - 1;
      RunConcat(doc, hash, s, before, after[..n]);
      assert (before + after)[..|before| + n] == before + after[..n];
    }
  }

  /** After any run, restoring gives every text node its content at the most recent `translateNow`, */
  lemma RestoreUndoesRun(doc: Doc, hash: string -> string, s: State, before: seq<Event>, after: seq<Event>)
    requires PageValid(doc, s.content)
    requires forall e :: e in after ==> !e.Begin?
    ensures Step(doc, hash, Run(doc, hash, s, before + [Begin] + after), Restore).content
         == Run(doc, hash, s, before).content
  {
    var mid := Run(doc, hash, s, before);
    assert (before + [Begin])[..|before|] == before;
    RunConcat(doc, hash, s, before + [Begin], after);
    BeginTracks(doc, hash, mid);
    RunTracks(doc, hash, Step(doc, hash, mid, Begin), after, mid.content);
    RestoreTracked(doc, hash, Run(doc, hash, Step(doc, hash, mid, Begin), after), mid.content);
  }

  /** and a run that never translated has changed nothing. */
  lemma RestoreBeforeTranslation(doc: Doc, hash: string -> string, content: Content, events: seq<Event>)
    requires PageValid(doc, content)
    requires forall e :: e in events ==> !e.Begin?
    ensures Run(doc, hash, State(Original, map[], [], content), events).content == content
  {
    var s := State(Original, map[], [], content);
    RunTracks(doc, hash, s, events, content);
    RunTable(doc, hash, s, events);
    var s' := Run(doc, hash, s, events);
    forall loc | loc in s'.content ensures s'.content[loc] == content[loc] {
      assert TracksAt(doc, s', content, loc);
    }
  }

  lemma {:induction false} RunTable(doc: Doc, hash: string -> string, s: State, events: seq<Event>)
    requires PageValid(doc, s.content)
    requires forall e :: e in events ==> !e.Begin?
    ensures Run(doc, hash, s, events).table == s.table
  {
    if events != [] {
      RunTable(doc, hash, s, events[..|events| - 1]);
    }
  }

  /** A completed translation shows each node that the table holds its translation, whatever the run was before it,
      and leaves the others alone. */
  lemma TranslationShown(doc: Doc, hash: string -> string, s: State, between: seq<Event>, batch: seq<SegmentResult>, loc: Loc)
    requires PageValid(doc, s.content) && loc in s.content && ValidLoc(doc.body, loc)
    requires forall e :: e in between ==> !e.Begin?
    ensures var t := TableOf(Snapshot(doc, hash, s.content, Locs(doc.body, true)));
            var shown := Step(doc, hash, Run(doc, hash, Step(doc, hash, s, Begin), between), Complete(batch)).content;
            && loc in shown
            && shown[loc] == match EntryAt(t, Path(doc, loc))
                             case None => s.content[loc]
                             case Some(e) => LastResult(batch, e.segmentId).GetOr(s.content[loc])
  {
    hide Run, Step, Path, EntryAt, Snapshot, TableOf, LastResult, Locs, ValidLoc;
    var s1 := Step(doc, hash, s, Begin);
    var s2 := Run(doc, hash, s1, between);
    BeginTracks(doc, hash, s);
    BeginTable(doc, hash, s);
    RunTracks(doc, hash, s1, between, s.content);
    RunTable(doc, hash, s1, between);
    assert TracksAt(doc, s2, s.content, loc);
    CompleteShown(doc, hash, s2, batch, loc);
  }

  lemma BeginTable(doc: Doc, hash: string -> string, s: State)
    requires PageValid(doc, s.content)
    ensures Step(doc, hash, s, Begin).table == TableOf(Snapshot(doc, hash, s.content, Locs(doc.body, true)))
    ensures var s' := Step(doc, hash, s, Begin); s'.mode == s.mode && s'.results == s.results && s'.content == s.content
  {}

  lemma CompleteShown(doc: Doc, hash: string -> string, s: State, batch: seq<SegmentResult>, loc: Loc)
    requires PageValid(doc, s.content) && loc in s.content && ValidLoc(doc.body, loc)
    ensures var shown := Step(doc, hash, s, Complete(batch)).content;
            && loc in shown
            && shown[loc] == match EntryAt(s.table, Path(doc, loc))
                             case None => s.content[loc]
                             case Some(e) => LastResult(batch, e.segmentId).GetOr(e.originalText)
  {
    hide Path, EntryAt, LastResult, Locs, ValidLoc;
  }

  // ----- Which nodes the table holds -----

  /** The id of a node's segment; blank nodes have none. */
  ghost function IdAt(doc: Doc, hash: string -> string, content: Content, loc: Loc): Option<string>
    requires PageValid(doc, content) && loc in content
  {
    PageLoc(doc, content, loc);
    var seg := MakeSegment(hash, Path(doc, loc), content[loc]);
    if seg.Some? then Some(seg.value.id) else None
  }

  /** A node after number `k`, and before number `n`, has the id. */
  ghost predicate Rival(doc: Doc, hash: string -> string, content: Content, k: nat, n: nat, id: string)
    requires PageValid(doc, content) && n <= |Locs(doc.body, true)|
  {
    exists j :: k < j < n && Taken(doc, hash, content, j, id)
  }

  ghost predicate Taken(doc: Doc, hash: string -> string, content: Content, j: nat, id: string)
    requires PageValid(doc, content) && j < |Locs(doc.body, true)|
  {
    var loc := Locs(doc.body, true)[j];
    PageLoc(doc, content, loc);
    IdAt(doc, hash, content, loc) == Some(id)
  }

  /** The table of the first `n` collected nodes. */
  ghost function TableUpTo(doc: Doc, hash: string -> string, content: Content, n: nat): Table
    requires PageValid(doc, content) && n <= |Locs(doc.body, true)|
  {
    TableOf(Snapshot(doc, hash, content, Locs(doc.body, true)[..n]))
  }

  lemma TableStep(doc: Doc, hash: string -> string, content: Content, n: nat)
    requires PageValid(doc, content) && n < |Locs(doc.body, true)|
    ensures var loc := Locs(doc.body, true)[n];
            && loc in content && ValidLoc(doc.body, loc)
            && TableUpTo(doc, hash, content, n + 1) == match IdAt(doc, hash, content, loc)
                 case None => TableUpTo(doc, hash, content, n)
                 case Some(id) => TableUpTo(doc, hash, content, n)[id := RestoreEntry(id, content[loc], Path(doc, loc))]
  {
    hide Path, Trim, Collapse, ValidLoc, Locs;
    var locs := Locs(doc.body, true);
    var loc := locs[n];
    PageLoc(doc, content, loc);
    assert locs[..n + 1][..n] == locs[..n];
    var seg, entries := MakeSegment(hash, Path(doc, loc), content[loc]), Snapshot(doc, hash, content, locs[..n]);
    if seg.Some? {
      var e := RestoreEntry(seg.value.id, content[loc], Path(doc, loc));
      assert (entries + [e])[..|entries|] == entries;
    } else {
      assert entries + [] == entries;
    }
  }

  /** In a table of the first `n` nodes, node `k` holds the entry of its id unless a later one has taken it. */
  lemma {:induction false} HeldUpTo(doc: Doc, hash: string -> string, content: Content, k: nat, n: nat, e: RestoreEntry)
    requires PageValid(doc, content) && k < n <= |Locs(doc.body, true)|
    requires Locs(doc.body, true)[k] in content && EntryOf(doc, hash, content, Locs(doc.body, true)[k], e)
    ensures e.segmentId in TableUpTo(doc, hash, content, n)
    ensures TableUpTo(doc, hash, content, n)[e.segmentId] == e <==> !Rival(doc, hash, content, k, n, e.segmentId)
  {
    hide TableUpTo, Path, Locs, ValidLoc, MakeSegment;
    var locs, m, id := Locs(doc.body, true), n - 1, e.segmentId;
    TableStep(doc, hash, content, m);
    if k < m {
      HeldUpTo(doc, hash, content, k, m, e);
      PageLoc(doc, content, locs[k]);
      LocsDistinct(doc.body, true, k, m);
      if Taken(doc, hash, content, m, id) {
        assert Rival(doc, hash, content, k, n, id);
        if Path(doc, locs[m]) == Path(doc, locs[k]) {
          PathInjective(doc, locs[m], locs[k]);
        }
      } else {
        assert Rival(doc, hash, content, k, n, id) <==> Rival(doc, hash, content, k, m, id);
      }
    }
  }

  /** A collected node is in the table if and only if no later one has its id; else the table does not know it at all. */
  lemma HeldIff(doc: Doc, hash: string -> string, content: Content, k: nat, e: RestoreEntry)
    requires PageValid(doc, content) && k < |Locs(doc.body, true)|
    requires Locs(doc.body, true)[k] in content && ValidLoc(doc.body, Locs(doc.body, true)[k])
    requires EntryOf(doc, hash, content, Locs(doc.body, true)[k], e)
    ensures EntryAt(TableOf(Snapshot(doc, hash, content, Locs(doc.body, true))), Path(doc, Locs(doc.body, true)[k]))
         == if Rival(doc, hash, content, k, |Locs(doc.body, true)|, e.segmentId) then None else Some(e)
  {
    var locs := Locs(doc.body, true);
    var n, path := |locs|, Path(doc, locs[k]);
    var t := TableOf(Snapshot(doc, hash, content, locs));
    assert locs[..n] == locs;
    HeldUpTo(doc, hash, content, k, n, e);
    SnapshotTable(doc, hash, content);
    hide Path, Locs, Snapshot, TableOf, MakeSegment;
    if t[e.segmentId] == e {
      EntryAtKey(t, e.segmentId);
    } else if id :| HasPath(t, id, path) {
      SnapshotAt(doc, hash, content, id, locs[k]);
      assert false;
    }
  }

  /** Every collected node is in the table if and only if no two have the same id. */
  lemma AllHeldIff(doc: Doc, hash: string -> string, content: Content)
    requires PageValid(doc, content)
    ensures (forall k :: 0 <= k < |Locs(doc.body, true)| ==> Held(doc, hash, content, k))
       <==> (forall j, k, id :: 0 <= j < k < |Locs(doc.body, true)| ==>
               !(Taken(doc, hash, content, j, id) && Taken(doc, hash, content, k, id)))
  {
    var n := |Locs(doc.body, true)|;
    forall k | 0 <= k < n
      ensures Held(doc, hash, content, k) <==>
                forall id :: Taken(doc, hash, content, k, id) ==> !Rival(doc, hash, content, k, n, id)
    {
      HeldOne(doc, hash, content, k);
    }
    hide Held, Taken, Locs;
    if forall k :: 0 <= k < n ==> Held(doc, hash, content, k) {
      forall j, k, id | 0 <= j < k < n && Taken(doc, hash, content, j, id)
        ensures !Taken(doc, hash, content, k, id)
      {
        assert Held(doc, hash, content, j);
      }
    }
  }

  /** The table has an entry for a collected node, unless the node is blank. */
  ghost predicate Held(doc: Doc, hash: string -> string, content: Content, k: nat)
    requires PageValid(doc, content) && k < |Locs(doc.body, true)|
  {
    var loc := Locs(doc.body, true)[k];
    PageLoc(doc, content, loc);
    IdAt(doc, hash, content, loc).Some? ==>
      EntryAt(TableOf(Snapshot(doc, hash, content, Locs(doc.body, true))), Path(doc, loc)).Some?
  }

  lemma HeldOne(doc: Doc, hash: string -> string, content: Content, k: nat)
    requires PageValid(doc, content) && k < |Locs(doc.body, true)|
    ensures Held(doc, hash, content, k) <==>
              forall id :: Taken(doc, hash, content, k, id) ==> !Rival(doc, hash, content, k, |Locs(doc.body, true)|, id)
  {
    hide Path, Locs, Snapshot, TableOf, EntryAt, Rival;
    var loc := Locs(doc.body, true)[k];
    PageLoc(doc, content, loc);
    var id := IdAt(doc, hash, content, loc);
    if id.Some? {
      HeldIff(doc, hash, content, k, RestoreEntry(id.value, content[loc], Path(doc, loc)));
      assert Taken(doc, hash, content, k, id.value);
    }
  }

  /** So the node that loses its id to a later one is left untranslated and untouched. */
  lemma LoserUntouched(doc: Doc, hash: string -> string, s: State, between: seq<Event>, batch: seq<SegmentResult>,
                       k: nat, e: RestoreEntry)
    requires PageValid(doc, s.content) && k < |Locs(doc.body, true)|
    requires Locs(doc.body, true)[k] in s.content && ValidLoc(doc.body, Locs(doc.body, true)[k])
    requires EntryOf(doc, hash, s.content, Locs(doc.body, true)[k], e)
    requires Rival(doc, hash, s.content, k, |Locs(doc.body, true)|, e.segmentId)
    requires forall e :: e in between ==> !e.Begin?
    ensures var loc, shown := Locs(doc.body, true)[k],
                              Step(doc, hash, Run(doc, hash, Step(doc, hash, s, Begin), between), Complete(batch)).content;
            loc in shown && shown[loc] == s.content[loc]
  {
    hide Run, Step, Path, Locs, Snapshot, TableOf;
    HeldIff(doc, hash, s.content, k, e);
    TranslationShown(doc, hash, s, between, batch, Locs(doc.body, true)[k]);
  }

  // ----- Without collisions every text is translated -----

  /** Hashes are hexadecimal digits, so they hold no colon. */
  ghost predicate ColonFree(hash: string -> string) {
    forall s :: ':' !in hash(s)
  }

  ghost predicate CollisionFree(hash: string -> string) {
    forall s, t :: hash(s) == hash(t) ==> s == t
  }

  /** A path and a colon-free hash are told apart in `path:hash`. */
  lemma LastColon(a: string, x: string, b: string, y: string)
    requires ':' !in x && ':' !in y && a + ":" + x == b + ":" + y
    ensures a == b && x == y
  {
    var s := a + ":" + x;
    assert s[|a|] == ':' && s[|b|] == ':';
    assert forall i :: |a| < i < |s| ==> s[i] == x[i - |a| - 1] && s[i] != ':';
    assert forall i :: |b| < i < |s| ==> s[i] == y[i - |b| - 1] && s[i] != ':';
    assert s[..|a|] == a && s[..|b|] == b && s[|a| + 1..] == x && s[|b| + 1..] == y;
  }

  /** Two collected nodes with the same id exhibit a collision of the hash: two different strings with one hash. */
  lemma SameIdIsCollision(doc: Doc, hash: string -> string, content: Content, j: nat, k: nat, id: string)
      returns (x: string, y: string)
    requires PageValid(doc, content) && ColonFree(hash) && j < k < |Locs(doc.body, true)|
    requires Taken(doc, hash, content, j, id) && Taken(doc, hash, content, k, id)
    ensures x != y && hash(x) == hash(y)
  {
    var a, b := Locs(doc.body, true)[j], Locs(doc.body, true)[k];
    PageLoc(doc, content, a);
    PageLoc(doc, content, b);
    LocsDistinct(doc.body, true, j, k);
    hide Locs, Path, PageValid;
    var p, q := Path(doc, a), Path(doc, b);
    var t, u := hash(Trim(Collapse(content[a]))), hash(Trim(Collapse(content[b])));
    x, y := p + ":" + t, q + ":" + u;
    assert "seg_" + hash(x) == id == "seg_" + hash(y);
    assert hash(x) == ("seg_" + hash(x))[4..] && hash(y) == ("seg_" + hash(y))[4..];
    if x == y {
      LastColon(p, t, q, u);
      DistinctPaths(doc, content, a, b);
    }
  }

  lemma DistinctPaths(doc: Doc, content: Content, a: Loc, b: Loc)
    requires PageValid(doc, content) && ValidLoc(doc.body, a) && ValidLoc(doc.body, b) && Path(doc, a) == Path(doc, b)
    ensures a == b
  {
    PathInjective(doc, a, b);
  }

  /** So without collisions the table has the entry of every collected node that is not blank, */
  lemma AllHeldWithoutCollisions(doc: Doc, hash: string -> string, content: Content, loc: Loc) returns (e: RestoreEntry)
    requires PageValid(doc, content) && ColonFree(hash) && CollisionFree(hash)
    requires loc in Locs(doc.body, true) && loc in content && ValidLoc(doc.body, loc)
    requires exists i :: 0 <= i < |content[loc]| && !IsSpace(content[loc][i])
    ensures e.path == Path(doc, loc) && e.originalText == content[loc]
    ensures e in Snapshot(doc, hash, content, Locs(doc.body, true))
    ensures EntryAt(TableOf(Snapshot(doc, hash, content, Locs(doc.body, true))), Path(doc, loc)) == Some(e)
  {
    var locs := Locs(doc.body, true);
    var k :| 0 <= k < |locs| && locs[k] == loc;
    NormalizedText(content[loc]);
    var seg := MakeSegment(hash, Path(doc, loc), content[loc]);
    e := RestoreEntry(seg.value.id, content[loc], Path(doc, loc));
    assert EntryOf(doc, hash, content, loc, e);
    assert Taken(doc, hash, content, k, e.segmentId);
    HeldIff(doc, hash, content, k, e);
    if Rival(doc, hash, content, k, |locs|, e.segmentId) {
      var j :| k < j < |locs| && Taken(doc, hash, content, j, e.segmentId);
      var x, y := SameIdIsCollision(doc, hash, content, k, j, e.segmentId);
      assert false;
    }
    EntryFromSnapshot(doc, hash, content, Path(doc, loc), e);
  }

  lemma EntryFromSnapshot(doc: Doc, hash: string -> string, content: Content, path: string, e: RestoreEntry)
    requires PageValid(doc, content)
    requires EntryAt(TableOf(Snapshot(doc, hash, content, Locs(doc.body, true))), path) == Some(e)
    ensures e in Snapshot(doc, hash, content, Locs(doc.body, true))
  {
    TableEntries(Snapshot(doc, hash, content, Locs(doc.body, true)));
  }

  /** and a completed translation shows every text outside left-out elements, unless it is blank, as the last result for
      the segment that was collected at its path, or unchanged where there is none. */
  lemma EveryTextTranslated(doc: Doc, hash: string -> string, s: State, between: seq<Event>, batch: seq<SegmentResult>,
                            loc: Loc) returns (seg: Segment)
    requires PageValid(doc, s.content) && ColonFree(hash) && CollisionFree(hash)
    requires Visited(doc.body, loc, true) && loc in s.content
    requires exists i :: 0 <= i < |s.content[loc]| && !IsSpace(s.content[loc][i])
    requires forall e :: e in between ==> !e.Begin?
    ensures seg in Segments(doc, hash, s.content) && seg.path == Path(doc, loc)
    ensures Words(seg.originalText) == Words(s.content[loc])
    ensures var shown := Step(doc, hash, Run(doc, hash, Step(doc, hash, s, Begin), between), Complete(batch)).content;
            loc in shown && shown[loc] == LastResult(batch, seg.id).GetOr(s.content[loc])
  {
    LocsIff(doc.body, true, loc);
    PageLoc(doc, s.content, loc);
    hide Run, Step, Path, EntryAt, Snapshot, TableOf, LastResult, Locs, ValidLoc, CollisionFree, ColonFree, Visited;
    var e := AllHeldWithoutCollisions(doc, hash, s.content, loc);
    TranslationShown(doc, hash, s, between, batch, loc);
    seg := SegmentOf(e);
    NormalizedText(e.originalText);
    var entries := Snapshot(doc, hash, s.content, Locs(doc.body, true));
    var k :| 0 <= k < |entries| && entries[k] == e;
    assert Segments(doc, hash, s.content)[k] == seg;
  }

  /** What `BeginTranslation` hands to the translator. */
  ghost function Segments(doc: Doc, hash: string -> string, content: Content): seq<Segment>
    requires PageValid(doc, content)
  {
    var entries := Snapshot(doc, hash, content, Locs(doc.body, true));
    seq(|entries|, i requires 0 <= i < |entries| => SegmentOf(entries[i]))
  }

  /** Switching to either translated mode shows the latest results in every node that the table holds, whatever the run
      was; switching to the originals shows the snapshot. */
  lemma ModeShown(doc: Doc, hash: string -> string, s: State, snapshot: Content, mode: Mode, loc: Loc)
    requires Tracks(doc, s, snapshot) && loc in s.content && ValidLoc(doc.body, loc)
    ensures var shown := Step(doc, hash, s, SetMode(mode)).content;
            && loc in shown
            && shown[loc] == match EntryAt(s.table, Path(doc, loc))
                             case None => snapshot[loc]
                             case Some(e) => if mode == Translated || mode == Dual
                                             then LastResult(s.results, e.segmentId).GetOr(snapshot[loc]) else snapshot[loc]
  {
    assert TracksAt(doc, s, snapshot, loc);
    hide Path, EntryAt, LastResult, Locs, ValidLoc;
  }

  /** After a failed translation every mode shows the texts of its snapshot, until a translation completes. */
  lemma FailForgets(doc: Doc, hash: string -> string, s: State, snapshot: Content, mode: Mode, loc: Loc)
    requires Tracks(doc, s, snapshot) && loc in s.content && ValidLoc(doc.body, loc)
    ensures Step(doc, hash, s, Fail).content == s.content && Step(doc, hash, s, Fail).mode == s.mode
    ensures var shown := Step(doc, hash, Step(doc, hash, s, Fail), SetMode(mode)).content;
            loc in shown && shown[loc] == snapshot[loc]
  {
    var s' := Step(doc, hash, s, Fail);
    StepTracks(doc, hash, s, Fail, snapshot);
    hide Tracks;
    ModeShown(doc, hash, s', snapshot, mode, loc);
  }

  // ----- A page whose two nodes collide -----

  const TWO_TEXTS: Doc := Doc(1, Element("BODY", false, [TextNode, TextNode]))

  lemma TwoTexts()
    ensures Locs(TWO_TEXTS.body, true) == [[0], [1]] && Locs(TWO_TEXTS.body, false) == [[0], [1]]
    ensures ValidLoc(TWO_TEXTS.body, [0]) && ValidLoc(TWO_TEXTS.body, [1])
    ensures PageValid(TWO_TEXTS, map[[0] := "a", [1] := "b"])
  {
    var kids := [TextNode, TextNode];
    assert ToUpper("BODY") == "BODY";
    forall skip: bool ensures KidLocs(kids, 0, skip) == [[0], [1]] {
      assert kids[1..] == [TextNode] && kids[1..][1..] == [];
      assert [0] + [] == [0] && [1] + [] == [1];
      assert Locs(TextNode, skip) == [[]] && Prepend(0, [[]]) == [[0]] && Prepend(1, [[]]) == [[1]];
      assert KidLocs([], 2, skip) == [] && KidLocs(kids[1..], 1, skip) == [[1]] + [] == [[1]];
      assert KidLocs(kids, 0, skip) == [[0]] + [[1]];
    }
    assert [0][1..] == [] && [1][1..] == [];
  }

  /** With a hash that collides, the first of two text nodes is not in the table, and the second is. */
  lemma CollisionExample()
    ensures var content: Content := map[[0] := "a", [1] := "b"];
            && PageValid(TWO_TEXTS, content) && ValidLoc(TWO_TEXTS.body, [0]) && ValidLoc(TWO_TEXTS.body, [1])
            && var t := TableOf(Snapshot(TWO_TEXTS, s => "0", content, Locs(TWO_TEXTS.body, true)));
               && EntryAt(t, Path(TWO_TEXTS, [0])) == None
               && EntryAt(t, Path(TWO_TEXTS, [1])) == Some(RestoreEntry("seg_0", "b", Path(TWO_TEXTS, [1])))
  {
    var content: Content := map[[0] := "a", [1] := "b"];
    var hash := (s: string) => "0";
    TwoTexts();
    var e0 := RestoreEntry("seg_0", "a", Path(TWO_TEXTS, [0]));
    var e1 := RestoreEntry("seg_0", "b", Path(TWO_TEXTS, [1]));
    assert Trim(Collapse("a")) == "a" && Trim(Collapse("b")) == "b";
    assert EntryOf(TWO_TEXTS, hash, content, [0], e0) && EntryOf(TWO_TEXTS, hash, content, [1], e1);
    assert Taken(TWO_TEXTS, hash, content, 1, "seg_0");
    HeldIff(TWO_TEXTS, hash, content, 0, e0);
    HeldIff(TWO_TEXTS, hash, content, 1, e1);
  }

  // ----- Translating twice -----

  /** Every snapshot of the run is taken in mode original. */
  ghost predicate BeginsAtHome(doc: Doc, hash: string -> string, s: State, events: seq<Event>)
    requires PageValid(doc, s.content)
  {
    forall i :: 0 <= i < |events| && events[i].Begin? ==> Run(doc, hash, s, events[..i]).mode == Original
  }

  ghost predicate Home(doc: Doc, s: State, home: Content) {
    Tracks(doc, s, home) && (s.mode == Original ==> s.content == home)
  }

  lemma StepHome(doc: Doc, hash: string -> string, s: State, e: Event, home: Content)
    requires Home(doc, s, home) && (e.Begin? ==> s.mode == Original)
    ensures Home(doc, Step(doc, hash, s, e), home)
  {
    if e.Begin? {
      BeginTracks(doc, hash, s);
    } else {
      StepTracks(doc, hash, s, e, home);
      RestoreTracked(doc, hash, s, home);
    }
  }

  lemma PrefixAtHome(doc: Doc, hash: string -> string, s: State, events: seq<Event>, n: nat)
    requires PageValid(doc, s.content) && BeginsAtHome(doc, hash, s, events) && n < |events|
    ensures BeginsAtHome(doc, hash, s, events[..n])
    ensures events[n].Begin? ==> Run(doc, hash, s, events[..n]).mode == Original
  {
    hide Run, PageValid;
    forall i | 0 <= i < n && events[..n][i].Begin? ensures Run(doc, hash, s, events[..n][..i]).mode == Original {
      assert events[..n][..i] == events[..i];
    }
  }

  lemma {:induction false} RunHome(doc: Doc, hash: string -> string, s: State, events: seq<Event>, home: Content)
    requires PageValid(doc, s.content) && Home(doc, s, home) && BeginsAtHome(doc, hash, s, events)
    ensures Home(doc, Run(doc, hash, s, events), home)
  {
    hide Home, Step, BeginsAtHome;
    if events != [] {
      var n := |events| - 1;
      PrefixAtHome(doc, hash, s, events, n);
      RunHome(doc, hash, s, events[..n], home);
      StepHome(doc, hash, Run(doc, hash, s, events[..n]), events[n], home);
    }
  }

  /** In particular, snapshots in mode original never lose the page's own texts. */
  lemma RestoreReturnsHome(doc: Doc, hash: string -> string, home: Content, events: seq<Event>)
    requires PageValid(doc, home) && BeginsAtHome(doc, hash, State(Original, map[], [], home), events)
    ensures Step(doc, hash, Run(doc, hash, State(Original, map[], [], home), events), Restore).content == home
  {
    var s := State(Original, map[], [], home);
    forall loc | loc in home ensures TracksAt(doc, s, home, loc) {}
    RunHome(doc, hash, s, events, home);
    RestoreTracked(doc, hash, Run(doc, hash, s, events), home);
  }

  ghost predicate FromHome(doc: Doc, hash: string -> string, s: State, events: seq<Event>, home: Content)
    requires PageValid(doc, s.content)
  {
    forall i :: 0 <= i < |events| && events[i].Begin? ==> Run(doc, hash, s, events[..i]).content == home
  }

  lemma PrefixFromHome(doc: Doc, hash: string -> string, s: State, events: seq<Event>, home: Content, n: nat)
    requires PageValid(doc, s.content) && FromHome(doc, hash, s, events, home) && n <= |events|
    ensures FromHome(doc, hash, s, events[..n], home)
    ensures n < |events| && events[n].Begin? ==> Run(doc, hash, s, events[..n]).content == home
  {
    hide Run, PageValid;
    forall i | 0 <= i < n && events[..n][i].Begin? ensures Run(doc, hash, s, events[..n][..i]).content == home {
      assert events[..n][..i] == events[..i];
    }
  }

  lemma {:induction false} RunTracksHome(doc: Doc, hash: string -> string, s: State, events: seq<Event>, home: Content)
    requires PageValid(doc, s.content) && Tracks(doc, s, home) && FromHome(doc, hash, s, events, home)
    ensures Tracks(doc, Run(doc, hash, s, events), home)
  {
    hide Tracks, Step, FromHome;
    if events != [] {
      var n := |events| - 1;
      PrefixFromHome(doc, hash, s, events, home, n);
      RunTracksHome(doc, hash, s, events[..n], home);
      if events[n].Begin? {
        BeginTracks(doc, hash, Run(doc, hash, s, events[..n]));
      } else {
        StepTracks(doc, hash, Run(doc, hash, s, events[..n]), events[n], home);
      }
    }
  }

  /** The restore after the first `n` events of a run from a fresh controller. */
  ghost function RestoredAfter(doc: Doc, hash: string -> string, home: Content, events: seq<Event>, n: nat): Content
    requires PageValid(doc, home) && n <= |events|
  {
    Step(doc, hash, Run(doc, hash, State(Original, map[], [], home), events[..n]), Restore).content
  }

  /** At every point of a run a restore gives back the page's own texts if and only if every snapshot of the run was taken
      while they were shown. */
  lemma RestoreHomeIff(doc: Doc, hash: string -> string, home: Content, events: seq<Event>)
    requires PageValid(doc, home)
    ensures (forall n :: 0 <= n <= |events| ==> RestoredAfter(doc, hash, home, events, n) == home)
       <==> FromHome(doc, hash, State(Original, map[], [], home), events, home)
  {
    var s := State(Original, map[], [], home);
    forall loc | loc in home ensures TracksAt(doc, s, home, loc) {}
    hide Step, Run, FromHome, Tracks;
    if FromHome(doc, hash, s, events, home) {
      forall n | 0 <= n <= |events| ensures RestoredAfter(doc, hash, home, events, n) == home {
        PrefixFromHome(doc, hash, s, events, home, n);
        RunTracksHome(doc, hash, s, events[..n], home);
        RestoreTracked(doc, hash, Run(doc, hash, s, events[..n]), home);
      }
    }
    if forall n :: 0 <= n <= |events| ==> RestoredAfter(doc, hash, home, events, n) == home {
      SnapshotsFromHome(doc, hash, home, events);
    }
  }

  lemma SnapshotsFromHome(doc: Doc, hash: string -> string, home: Content, events: seq<Event>)
    requires PageValid(doc, home)
    requires forall n :: 0 <= n <= |events| ==> RestoredAfter(doc, hash, home, events, n) == home
    ensures FromHome(doc, hash, State(Original, map[], [], home), events, home)
  {
    hide Step, Run, PageValid;
    var s := State(Original, map[], [], home);
    forall i | 0 <= i < |events| && events[i].Begin? ensures Run(doc, hash, s, events[..i]).content == home {
      RestoreUndoesRun(doc, hash, s, events[..i], []);
      assert events[..i] + [Begin] + [] == events[..i + 1];
      assert RestoredAfter(doc, hash, home, events, i + 1) == home;
    }
  }

  /** Translating a page while its translation is shown takes the translations for the originals: a restore then gives
      back the translation of every node that the first table held. */
  lemma SecondTranslationKeepsFirst(doc: Doc, hash: string -> string, s: State, batch: seq<SegmentResult>, loc: Loc,
                                    e: RestoreEntry)
    requires PageValid(doc, s.content) && loc in s.content && ValidLoc(doc.body, loc)
    requires EntryAt(TableOf(Snapshot(doc, hash, s.content, Locs(doc.body, true))), Path(doc, loc)) == Some(e)
    ensures var restored := Step(doc, hash, Run(doc, hash, s, [Begin, Complete(batch), Begin]), Restore).content;
            loc in restored && restored[loc] == LastResult(batch, e.segmentId).GetOr(s.content[loc])
  {
    hide Snapshot, TableOf, EntryAt, Path, Locs, LastResult;
    var first := [Begin, Complete(batch)];
    RestoreUndoesRun(doc, hash, s, first, []);
    TranslationShown(doc, hash, s, [], batch, loc);
    assert first + [Begin] + [] == [Begin, Complete(batch), Begin];
    assert first[..1] == [Begin] && [Begin][..0] == [];
    assert Run(doc, hash, s, [Begin]) == Step(doc, hash, s, Begin);
  }

  /** On the page of two nodes: its second text is lost. */
  lemma TranslatedTwiceExample()
    ensures var home: Content := map[[0] := "a", [1] := "b"];
            && PageValid(TWO_TEXTS, home)
            && var s := State(Original, map[], [], home);
               var restored := Step(TWO_TEXTS, s => "0",
                                    Run(TWO_TEXTS, s => "0", s, [Begin, Complete([SegmentResult("seg_0", "c")]), Begin]),
                                    Restore).content;
               [1] in restored && restored[[1]] == "c"
  {
    var home: Content := map[[0] := "a", [1] := "b"];
    var hash, batch := (s: string) => "0", [SegmentResult("seg_0", "c")];
    CollisionExample();
    var e := RestoreEntry("seg_0", "b", Path(TWO_TEXTS, [1]));
    assert LastResult(batch, "seg_0") == Some("c");
    SecondTranslationKeepsFirst(TWO_TEXTS, hash, State(Original, map[], [], home), batch, [1], e);
  }
}

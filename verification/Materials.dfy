/** services/lesson_material_service.py, files: quotas, inline attachments of a text body, and the storage objects behind the
    rows. Requests on one lesson run one after another; a crash may stop one between its storage write and its commit. */
module Materials {
  import opened Common

  type Id = nat

  const MB := 1024 * 1024
  const LESSON_MATERIAL_MAX_FILES := 30
  const LESSON_MATERIAL_MAX_INLINE_FILES := 20
  const LESSON_MATERIAL_MAX_TOTAL_SIZE_MB := 2048

  datatype Category = Document | Image | Audio | Video | Archive

  /** `file` is the object's unique path. */
  datatype Material = Material(id: Id, file: nat, size: nat, inline: bool)

  /** Rows by creation time, the stored objects, and the ids the markdown body refers to. */
  datatype Library = Library(rows: seq<Material>, files: set<nat>, text: set<Id>, nextId: Id)

  /** `declared` is the size the multipart parser reports; `safe` the verdict of the content checks. */
  datatype Upload = Upload(size: nat, declared: Option<nat>, inline: bool, category: Option<Category>, safe: bool)

  datatype Error = TooManyFiles | TooManyInline | ExtensionNotAllowed | MaterialsTooLarge | FileTooLarge | Unsafe | NotFound

  function CategoryMaxMb(category: Category): nat {
    match category
    case Document => 100
    case Image => 50
    case Audio => 200
    case Video => 500
    case Archive => 200
  }

  function Bytes(rows: seq<Material>): (n: nat) {
    if rows == [] then 0 else Bytes(rows[..|rows| - 1]) + rows[|rows| - 1].size
  }

  function InlineCount(rows: seq<Material>): (n: nat)
    ensures n <= |rows|
  {
    if rows == [] then 0 else InlineCount(rows[..|rows| - 1]) + (if rows[|rows| - 1].inline then 1 else 0)
  }

  function TooLarge(remaining: int, limit: int): Error {
    if remaining < limit then MaterialsTooLarge else FileTooLarge
  }

  /** add_material's decision: the bytes it may store. */
  function Admit(rows: seq<Material>, u: Upload): Result<nat, Error> {
    if |rows| >= LESSON_MATERIAL_MAX_FILES then Err(TooManyFiles)
    else if u.inline && InlineCount(rows) >= LESSON_MATERIAL_MAX_INLINE_FILES then Err(TooManyInline)
    else if u.category.None? then Err(ExtensionNotAllowed)
    else
      var limit := CategoryMaxMb(u.category.value) * MB;
      var remaining := LESSON_MATERIAL_MAX_TOTAL_SIZE_MB * MB - Bytes(rows);
      var cap := Min(limit, remaining);
      if u.declared.Some? && u.declared.value > cap then Err(TooLarge(remaining, limit))
      else if !u.safe then Err(Unsafe)
      else if u.size > 0 && u.size > cap then Err(TooLarge(remaining, limit))
      else Ok(u.size)
  }

  predicate Orphan(m: Material, referenced: set<Id>) {
    m.inline && m.id !in referenced
  }

  function Orphans(rows: seq<Material>, referenced: set<Id>): (r: seq<Material>)
    ensures forall m :: m in r <==> m in rows && Orphan(m, referenced)
  {
    if rows == [] then []
    else
      var last := rows[|rows| - 1];
      Orphans(rows[..|rows| - 1], referenced) + (if Orphan(last, referenced) then [last] else [])
  }

  function Without(rows: seq<Material>, gone: set<Id>): (r: seq<Material>)
    ensures forall m :: m in r <==> m in rows && m.id !in gone
  {
    if rows == [] then []
    else
      var last := rows[|rows| - 1];
      Without(rows[..|rows| - 1], gone) + (if last.id in gone then [] else [last])
  }

  function FilesOf(rows: seq<Material>): set<nat> {
    set m | m in rows :: m.file
  }

  function IdsOf(rows: seq<Material>): set<Id> {
    set m | m in rows :: m.id
  }

  datatype Event =
    | Add(upload: Upload, crashed: bool)
    | Delete(id: Id, crash: bool)
    | SaveText(referenced: set<Id>)
    | SaveTextCrash(refs: set<Id>, removed: nat)

  /** Objects are removed before the commit that drops their rows, and stored before the commit that adds one. */
  function After(l: Library, e: Event): Library {
    match e
    case Add(upload, crashed) =>
      if Admit(l.rows, upload).Err? then l
      else
        var stored := l.(files := l.files + {l.nextId}, nextId := l.nextId + 1);
        if crashed then stored else stored.(rows := l.rows + [Material(l.nextId, l.nextId, upload.size, upload.inline)])
    case Delete(id, crash) =>
      var gone := Rows(l.rows, id);
      var removed := l.(files := l.files - FilesOf(gone));
      if crash then removed else removed.(rows := Without(l.rows, {id}))
    case SaveText(referenced) =>
      var orphans := Orphans(l.rows, referenced);
      l.(text := referenced, files := l.files - FilesOf(orphans), rows := Without(l.rows, IdsOf(orphans)))
    case SaveTextCrash(refs, removed) =>
      var orphans := Orphans(l.rows, refs);
      l.(files := l.files - FilesOf(if removed < |orphans| then orphans[..removed] else orphans))
  }

  function Rows(rows: seq<Material>, id: Id): (r: seq<Material>)
    ensures forall m :: m in r <==> m in rows && m.id == id
  {
    if rows == [] then []
    else
      var last := rows[|rows| - 1];
      Rows(rows[..|rows| - 1], id) + (if last.id == id then [last] else [])
  }

  function Play(l: Library, events: seq<Event>): Library {
    if events == [] then l else After(Play(l, events[..|events| - 1]), events[|events| - 1])
  }

  lemma PlaySnoc(l: Library, events: seq<Event>, e: Event)
    ensures Play(l, []) == l && Play(l, events + [e]) == After(Play(l, events), e)
  {
    assert (events + [e])[..|events|] == events;
  }

  const Empty := Library([], {}, {}, 0)

  ghost predicate WithinCaps(rows: seq<Material>) {
    && |rows| <= LESSON_MATERIAL_MAX_FILES && InlineCount(rows) <= LESSON_MATERIAL_MAX_INLINE_FILES
    && Bytes(rows) <= LESSON_MATERIAL_MAX_TOTAL_SIZE_MB * MB
  }

  ghost predicate Separate(rows: seq<Material>) {
    forall i, j :: 0 <= i < j < |rows| ==> rows[i].id != rows[j].id && rows[i].file != rows[j].file
  }

  ghost predicate Apart(l: Library) {
    && Separate(l.rows)
    && (forall m :: m in l.rows ==> m.id < l.nextId && m.file < l.nextId)
    && (forall f :: f in l.files ==> f < l.nextId)
  }

  lemma {:induction false} WithoutShrinks(rows: seq<Material>, gone: set<Id>)
    ensures |Without(rows, gone)| <= |rows| && InlineCount(Without(rows, gone)) <= InlineCount(rows)
    ensures Bytes(Without(rows, gone)) <= Bytes(rows)
  {
    if rows != [] {
      WithoutShrinks(rows[..|rows| - 1], gone);
      var rest, last := Without(rows[..|rows| - 1], gone), rows[|rows| - 1];
      assert (rest + [last])[..|rest|] == rest;
      assert rest + [] == rest;
    }
  }

  lemma AddKeepsCaps(rows: seq<Material>, u: Upload, m: Material)
    requires WithinCaps(rows) && Admit(rows, u).Ok? && m.size == u.size && m.inline == u.inline
    ensures WithinCaps(rows + [m])
  {
    assert (rows + [m])[..|rows|] == rows;
  }

  lemma EventKeepsCaps(l: Library, e: Event)
    requires WithinCaps(l.rows)
    ensures WithinCaps(After(l, e).rows)
  {
    match e
    case Add(upload, crashed) =>
      if Admit(l.rows, upload).Ok? {
        AddKeepsCaps(l.rows, upload, Material(l.nextId, l.nextId, upload.size, upload.inline));
      }
    case Delete(id, crash) => WithoutShrinks(l.rows, {id});
    case SaveText(referenced) => WithoutShrinks(l.rows, IdsOf(Orphans(l.rows, referenced)));
    case SaveTextCrash(refs, removed) =>
  }

  /** Over every run, crashes included, no cap is ever exceeded. */
  lemma {:induction false} CapsInEveryRun(events: seq<Event>)
    ensures var rows := Play(Empty, events).rows;
            && |rows| <= 30 && InlineCount(rows) <= 20 && Bytes(rows) <= 2048 * 1024 * 1024
            && WithinCaps(rows)
  {
    if events != [] {
      CapsInEveryRun(events[..|events| - 1]);
      EventKeepsCaps(Play(Empty, events[..|events| - 1]), events[|events| - 1]);
    }
  }

  /** Below the caps an upload is stored exactly when it passes every limit, with its size declared truthfully or not at all. */
  lemma AdmitIff(rows: seq<Material>, u: Upload)
    requires WithinCaps(rows) && (u.declared.Some? ==> u.declared.value == u.size)
    ensures Admit(rows, u).Ok? <==>
            && |rows| < 30 && (u.inline ==> InlineCount(rows) < 20) && u.safe && u.category.Some?
            && u.size <= CategoryMaxMb(u.category.value) * 1024 * 1024
            && Bytes(rows) + u.size <= 2048 * 1024 * 1024
  {
    if u.category.Some? {
      var limit, remaining := CategoryMaxMb(u.category.value) * MB, LESSON_MATERIAL_MAX_TOTAL_SIZE_MB * MB - Bytes(rows);
      assert u.size <= Min(limit, remaining) <==> u.size <= limit && u.size <= remaining;
    }
  }

  // ----- rows and their objects -----

  /** Rows whose object is gone. */
  function Dangling(l: Library): set<Id> {
    set m | m in l.rows && m.file !in l.files :: m.id
  }

  /** Objects no row points at. */
  function Strays(l: Library): set<nat> {
    set f | f in l.files && f !in FilesOf(l.rows)
  }

  lemma {:induction false} WithoutKeepsApart(rows: seq<Material>, gone: set<Id>)
    requires Separate(rows)
    ensures Separate(Without(rows, gone))
  {
    if rows != [] {
      var front, last := rows[..|rows| - 1], rows[|rows| - 1];
      WithoutKeepsApart(front, gone);
      forall m | m in Without(front, gone) ensures m.id != last.id && m.file != last.file {
        var k :| 0 <= k < |front| && front[k] == m;
        assert rows[k] == m;
      }
    }
  }

  lemma EventKeepsApart(l: Library, e: Event)
    requires Apart(l)
    ensures Apart(After(l, e))
  {
    match e
    case Delete(id, crash) => WithoutKeepsApart(l.rows, {id});
    case SaveText(referenced) => WithoutKeepsApart(l.rows, IdsOf(Orphans(l.rows, referenced)));
    case _ =>
  }

  lemma {:induction false} ApartInEveryRun(events: seq<Event>)
    ensures Apart(Play(Empty, events))
  {
    if events != [] {
      ApartInEveryRun(events[..|events| - 1]);
      EventKeepsApart(Play(Empty, events[..|events| - 1]), events[|events| - 1]);
    }
  }

  /** The rows of one id, with unique ids and paths. */
  lemma OneRow(l: Library, a: Material, b: Material)
    requires Apart(l) && a in l.rows && b in l.rows && (a.id == b.id || a.file == b.file)
    ensures a == b
  {
  }

  /** The inline rows whose objects a save_text_body had removed when it crashed. */
  function Removed(l: Library, e: Event): seq<Material>
    requires e.SaveTextCrash?
  {
    var orphans := Orphans(l.rows, e.refs);
    if e.removed < |orphans| then orphans[..e.removed] else orphans
  }

  /** What each step may do to the match between rows and objects, from a library where no row dangles. A crash in a delete
      leaves exactly the deleted row dangling, a crash in a text save exactly the rows whose objects were already removed (an
      object goes first, its row with the commit); a crash in an upload leaves exactly one stray object; nothing else
      disturbs the match. */
  lemma CrashLeaves(l: Library, e: Event)
    requires Apart(l) && Dangling(l) == {}
    ensures Dangling(After(l, e)) == match e
                                     case Add(_, _) => {}
                                     case Delete(id, crash) => if crash then IdsOf(Rows(l.rows, id)) else {}
                                     case SaveText(_) => {}
                                     case SaveTextCrash(_, _) => IdsOf(Removed(l, e))
    ensures Strays(After(l, e)) == if e.Add? && e.crashed && Admit(l.rows, e.upload).Ok? then Strays(l) + {l.nextId} else Strays(l)
  {
    match e
    case Add(_, _) => AddLeaves(l, e);
    case Delete(id, crash) => DeleteLeaves(l, id, crash);
    case SaveText(referenced) => SweepLeaves(l, referenced);
    case SaveTextCrash(refs, removed) => SweepCrashLeaves(l, refs, removed);
  }

  lemma AddLeaves(l: Library, e: Event)
    requires Apart(l) && Dangling(l) == {} && e.Add?
    ensures Dangling(After(l, e)) == {}
    ensures Strays(After(l, e)) == if e.crashed && Admit(l.rows, e.upload).Ok? then Strays(l) + {l.nextId} else Strays(l)
  {
    forall m | m in l.rows ensures m.file in l.files {
      NoneDangles(l, m);
    }
    AddStrays(l, e);
  }

  lemma DeleteLeaves(l: Library, id: Id, crash: bool)
    requires Apart(l) && Dangling(l) == {}
    ensures var v := After(l, Delete(id, crash));
            Dangling(v) == (if crash then IdsOf(Rows(l.rows, id)) else {}) && Strays(v) == Strays(l)
  {
    RowsAreRows(l, id);
    RemovalLeaves(l, Rows(l.rows, id));
    if !crash {
      DropLeaves(l, After(l, Delete(id, crash)), Rows(l.rows, id), {id});
    }
  }

  lemma SweepLeaves(l: Library, referenced: set<Id>)
    requires Apart(l) && Dangling(l) == {}
    ensures var v := After(l, SaveText(referenced)); Dangling(v) == {} && Strays(v) == Strays(l)
  {
    var orphans := Orphans(l.rows, referenced);
    forall m | m in l.rows ensures m in orphans <==> m.id in IdsOf(orphans) {
      if m.id in IdsOf(orphans) {
        var o :| o in orphans && o.id == m.id;
        OneRow(l, m, o);
      }
    }
    DropLeaves(l, After(l, SaveText(referenced)), orphans, IdsOf(orphans));
  }

  lemma SweepCrashLeaves(l: Library, refs: set<Id>, removed: nat)
    requires Apart(l) && Dangling(l) == {}
    ensures var e := SaveTextCrash(refs, removed);
            Dangling(After(l, e)) == IdsOf(Removed(l, e)) && Strays(After(l, e)) == Strays(l)
  {
    var gone := Removed(l, SaveTextCrash(refs, removed));
    assert forall m :: m in gone ==> m in Orphans(l.rows, refs);
    RemovalLeaves(l, gone);
  }

  /** A crashed text save is harmless exactly when it had removed no object yet. */
  lemma TextCrashIsHarmlessIff(l: Library, refs: set<Id>, removed: nat)
    requires Apart(l) && Dangling(l) == {}
    ensures Dangling(After(l, SaveTextCrash(refs, removed))) == {} <==> removed == 0 || Orphans(l.rows, refs) == []
  {
    var gone := Removed(l, SaveTextCrash(refs, removed));
    CrashLeaves(l, SaveTextCrash(refs, removed));
    if gone != [] {
      assert gone[0].id in IdsOf(gone);
    }
  }

  lemma RowsAreRows(l: Library, id: Id)
    ensures forall m :: m in Rows(l.rows, id) ==> m in l.rows
    ensures IdsOf(Rows(l.rows, id)) <= {id}
  {
  }

  /** Removing the objects of some rows leaves exactly these rows dangling, and no stray. */
  lemma RemovalLeaves(l: Library, gone: seq<Material>)
    requires Apart(l) && Dangling(l) == {} && forall m :: m in gone ==> m in l.rows
    ensures var v := l.(files := l.files - FilesOf(gone));
            && (forall m :: m in l.rows ==> (m.file in v.files <==> m !in gone))
            && Dangling(v) == IdsOf(gone) && Strays(v) == Strays(l)
  {
    var v := l.(files := l.files - FilesOf(gone));
    forall m | m in l.rows ensures m.file in v.files <==> m !in gone {
      NoneDangles(l, m);
      if m.file in FilesOf(gone) {
        var o :| o in gone && o.file == m.file;
        OneRow(l, m, o);
      }
    }
  }

  /** And dropping the rows as well leaves none dangling. */
  lemma DropLeaves(l: Library, v: Library, gone: seq<Material>, ids: set<Id>)
    requires Apart(l) && Dangling(l) == {} && forall m :: m in gone ==> m in l.rows
    requires v.rows == Without(l.rows, ids) && v.files == l.files - FilesOf(gone)
    requires forall m :: m in l.rows ==> (m in gone <==> m.id in ids)
    ensures Dangling(v) == {} && Strays(v) == Strays(l)
  {
    RemovalLeaves(l, gone);
    forall f | f in Strays(v) ensures f in Strays(l) {
      assert forall m :: m in l.rows && m.file == f ==> m in v.rows;
    }
    forall f | f in Strays(l) ensures f in Strays(v) {
      assert f !in FilesOf(l.rows) && FilesOf(v.rows) <= FilesOf(l.rows);
      assert f !in FilesOf(gone);
    }
  }

  lemma AddStrays(l: Library, e: Event)
    requires Apart(l) && e.Add?
    ensures Strays(After(l, e)) == Strays(l) + (if e.crashed && Admit(l.rows, e.upload).Ok? then {l.nextId} else {})
  {
    var v := After(l, e);
    if Admit(l.rows, e.upload).Ok? && !e.crashed {
      var m := Material(l.nextId, l.nextId, e.upload.size, e.upload.inline);
      assert m in v.rows;
      assert FilesOf(v.rows) == FilesOf(l.rows) + {l.nextId};
    }
  }

  lemma NoneDangles(l: Library, m: Material)
    requires Dangling(l) == {} && m in l.rows
    ensures m.file in l.files
  {
    assert m.file !in l.files ==> m.id in Dangling(l);
  }

  ghost predicate NoCrash(e: Event) {
    match e
    case Add(_, crashed) => !crashed
    case Delete(_, crash) => !crash
    case SaveText(_) => true
    case SaveTextCrash(_, _) => false
  }

  /** Without crashes every row has its object, in every run. */
  lemma {:induction false} NoRowDangles(events: seq<Event>)
    requires forall i :: 0 <= i < |events| ==> NoCrash(events[i])
    ensures Dangling(Play(Empty, events)) == {}
  {
    if events != [] {
      var front := events[..|events| - 1];
      assert forall i :: 0 <= i < |front| ==> front[i] == events[i];
      NoRowDangles(front);
      ApartInEveryRun(front);
      CrashLeaves(Play(Empty, front), events[|events| - 1]);
      assert NoCrash(events[|events| - 1]);
    }
  }

  /** The docstring's promise, no row without its bytes, fails whenever a delete of an existing row crashes half way. */
  lemma CrashedDeleteDangles(events: seq<Event>, m: Material)
    requires (forall i :: 0 <= i < |events| ==> NoCrash(events[i])) && m in Play(Empty, events).rows
    ensures Dangling(After(Play(Empty, events), Delete(m.id, true))) == {m.id}
  {
    var l := Play(Empty, events);
    NoRowDangles(events);
    ApartInEveryRun(events);
    CrashLeaves(l, Delete(m.id, true));
    assert m in Rows(l.rows, m.id);
    assert IdsOf(Rows(l.rows, m.id)) == {m.id};
  }

  /** After a saved text body every inline row is referenced by it; every other row it removed is still there, in order. */
  lemma SaveTextSweeps(l: Library, referenced: set<Id>, m: Material)
    requires Apart(l)
    ensures var v := After(l, SaveText(referenced));
            && (m in v.rows <==> m in l.rows && (m.inline ==> m.id in referenced))
            && v.text == referenced
  {
    var v := After(l, SaveText(referenced));
    var orphans := Orphans(l.rows, referenced);
    if m in l.rows && m.id in IdsOf(orphans) {
      var o :| o in orphans && o.id == m.id;
      OneRow(l, m, o);
    }
  }

  // ----- what each request does -----

  lemma {:induction false} InlineCounts(rows: seq<Material>)
    ensures InlineCount(rows) == |set i | 0 <= i < |rows| && rows[i].inline|
  {
    if rows != [] {
      var front, last := rows[..|rows| - 1], rows[|rows| - 1];
      InlineCounts(front);
      var fewer, all := set i | 0 <= i < |front| && front[i].inline, set i | 0 <= i < |rows| && rows[i].inline;
      assert all == fewer + if last.inline then {|front|} else {};
    }
  }

  lemma BytesOfMore(rows: seq<Material>, m: Material)
    ensures Bytes([]) == 0 && Bytes(rows + [m]) == Bytes(rows) + m.size
  {
    assert (rows + [m])[..|rows|] == rows;
  }

  /** The refusals of an upload in their order; which limit is named depends on which leaves less room. */
  lemma AdmitRefusals(rows: seq<Material>, u: Upload)
    ensures var outcome := Admit(rows, u);
            var limit := if u.category.Some? then CategoryMaxMb(u.category.value) * 1024 * 1024 else 0;
            var room := 2048 * 1024 * 1024 - Bytes(rows);
            var early, late := u.declared.Some? && Over(u.declared.value, limit, room), u.size > 0 && Over(u.size, limit, room);
            if |rows| >= 30 then outcome == Err(TooManyFiles)
            else if u.inline && InlineCount(rows) >= 20 then outcome == Err(TooManyInline)
            else if u.category == None then outcome == Err(ExtensionNotAllowed)
            else if !early && !u.safe then outcome == Err(Unsafe)
            else if early || late then outcome == Err(if room < limit then MaterialsTooLarge else FileTooLarge)
            else outcome == Ok(u.size)
  {
    if u.category.Some? {
      var limit, room := CategoryMaxMb(u.category.value) * MB, LESSON_MATERIAL_MAX_TOTAL_SIZE_MB * MB - Bytes(rows);
      OverIff(u.size, limit, room);
      if u.declared.Some? {
        OverIff(u.declared.value, limit, room);
      }
    }
  }

  predicate Over(n: nat, limit: int, room: int) {
    n > limit || n > room
  }

  lemma OverIff(n: nat, limit: int, room: int)
    ensures Over(n, limit, room) <==> n > Min(limit, room)
  {
  }

  /** An admitted upload is stored as it came, in a new row with a new object; a crash leaves the object without the row; a
      refused upload leaves everything as it was. */
  lemma AddStores(l: Library, u: Upload, crashed: bool)
    requires Apart(l)
    ensures var v := After(l, Add(u, crashed));
            if Admit(l.rows, u).Err? then v == l
            else
              && |v.rows| == |l.rows| + (if crashed then 0 else 1) && v.rows[..|l.rows|] == l.rows && v.text == l.text
              && v.files > l.files && |v.files - l.files| == 1
              && (!crashed ==>
                    var m := v.rows[|l.rows|];
                    && m.size == u.size && m.inline == u.inline && m.file in v.files - l.files && m.id !in IdsOf(l.rows)
                    && Bytes(v.rows) == Bytes(l.rows) + u.size)
  {
    if Admit(l.rows, u).Ok? {
      assert l.nextId !in l.files && (l.files + {l.nextId}) - l.files == {l.nextId};
      BytesOfMore(l.rows, Material(l.nextId, l.nextId, u.size, u.inline));
    }
  }

  /** A delete takes the rows of its id and nothing else; the text is not asked. A crash, of it or of a text save, keeps rows and text. */
  lemma DeleteTakes(l: Library, id: Id, crash: bool, m: Material, refs: set<Id>, removed: nat)
    ensures var v := After(l, Delete(id, crash));
            (m in v.rows <==> m in l.rows && (crash || m.id != id)) && v.text == l.text && v.nextId == l.nextId
    ensures var v := After(l, SaveTextCrash(refs, removed)); v.rows == l.rows && v.text == l.text && v.nextId == l.nextId
  {
  }
}

/** services/lesson_material_service.py: the operations of one lesson's knowledge base, each proved against its event of
    Materials or Notes. */
module KnowledgeBase {
  import opened Common
  import Materials
  import Notes
  import Listing

  type Material = Materials.Material

  class Lesson {
    var rows: seq<Material>
    var files: set<nat>
    var text: set<Materials.Id>
    var nextMaterial: nat
    var orders: map<Notes.Id, int>
    var nextNote: nat

    constructor ()
      ensures Library() == Materials.Empty && NoteState() == Notes.Notes(map[], 0)
    {
      rows, files, text, nextMaterial, orders, nextNote := [], {}, {}, 0, map[], 0;
    }

    ghost function Library(): Materials.Library
      reads this
    {
      Materials.Library(rows, files, text, nextMaterial)
    }

    ghost function NoteState(): Notes.Notes
      reads this
    {
      Notes.Notes(orders, nextNote)
    }

    method AddMaterial(u: Materials.Upload) returns (result: Result<Material, Materials.Error>)
      modifies this`rows, this`files, this`nextMaterial
      ensures Library() == Materials.After(old(Library()), Materials.Add(u, false))
      ensures result.Ok? <==> Materials.Admit(old(rows), u).Ok?
      ensures result.Ok? ==> rows == old(rows) + [result.value] && result.value.file in files
      ensures result.Err? ==> Materials.Admit(old(rows), u) == Err(result.error)
    {
      if |rows| >= Materials.LESSON_MATERIAL_MAX_FILES {
        return Err(Materials.TooManyFiles);
      }
      if u.inline && Materials.InlineCount(rows) >= Materials.LESSON_MATERIAL_MAX_INLINE_FILES {
        return Err(Materials.TooManyInline);
      }
      if u.category.None? {
        return Err(Materials.ExtensionNotAllowed);
      }
      var limit := Materials.CategoryMaxMb(u.category.value) * Materials.MB;
      var remaining := Materials.LESSON_MATERIAL_MAX_TOTAL_SIZE_MB * Materials.MB - Materials.Bytes(rows);
      var hardCap := Min(limit, remaining);
      if u.declared.Some? && u.declared.value > hardCap {
        return Err(Materials.TooLarge(remaining, limit));
      }
      if !u.safe {
        return Err(Materials.Unsafe);
      }
      if u.size > 0 && u.size > hardCap {
        return Err(Materials.TooLarge(remaining, limit));
      }
      files := files + {nextMaterial};
      var material := Materials.Material(nextMaterial, nextMaterial, u.size, u.inline);
      nextMaterial := nextMaterial + 1;
      rows := rows + [material];
      return Ok(material);
    }

    /** Object first, then row, for every inline row the new body no longer mentions; the commit comes last. */
    method SaveTextBody(referenced: set<Materials.Id>) returns (swept: seq<Material>)
      modifies this`rows, this`files, this`text
      ensures Library() == Materials.After(old(Library()), Materials.SaveText(referenced))
      ensures swept == Materials.Orphans(old(rows), referenced)
    {
      swept := Materials.Orphans(rows, referenced);
      text := referenced;
      var gone: set<Materials.Id> := {};
      for i := 0 to |swept|
        invariant files == old(files) - Materials.FilesOf(swept[..i])
        invariant gone == Materials.IdsOf(swept[..i]) && rows == old(rows) && text == referenced
      {
        OneMoreSwept(swept, i);
        files := files - {swept[i].file};
        gone := gone + {swept[i].id};
      }
      assert swept[..|swept|] == swept;
      rows := Materials.Without(rows, gone);
    }

    method DeleteMaterial(id: Materials.Id) returns (found: bool)
      modifies this`rows, this`files
      ensures Library() == Materials.After(old(Library()), Materials.Delete(id, false))
      ensures found <==> id in Materials.IdsOf(old(rows))
    {
      var gone := Materials.Rows(rows, id);
      found := gone != [];
      assert found ==> gone[0] in gone;
      files := files - Materials.FilesOf(gone);
      rows := Materials.Without(rows, {id});
    }

    /** `maxOrder` is max(order) over the lesson's notes. */
    method CreateNote(maxOrder: Option<int>) returns (id: Option<Notes.Id>)
      requires maxOrder == if orders == map[] then None else Some(Notes.Highest(orders))
      modifies this`orders, this`nextNote
      ensures NoteState() == Notes.After(old(NoteState()), Notes.Create)
      ensures id.Some? <==> |old(orders)| < Notes.LESSON_NOTE_MAX_PER_LESSON
    {
      if |orders| >= Notes.LESSON_NOTE_MAX_PER_LESSON {
        return None;
      }
      var order := if maxOrder.None? then 0 else maxOrder.value + 1;
      orders := orders[nextNote := order];
      nextNote := nextNote + 1;
      return Some(nextNote - 1);
    }

    /** `notes` is the current listing. */
    method ReorderNotes(ids: seq<Notes.Id>, notes: seq<Notes.Id>) returns (ok: bool)
      requires Listing.IsListing(notes, orders)
      modifies this`orders
      ensures NoteState() == Notes.After(old(NoteState()), Notes.Reorder(ids))
      ensures ok <==> multiset(ids) == multiset(notes)
      ensures ok ==> Listing.IsListing(ids, orders)
    {
      Notes.AcceptsPermutations(orders, ids, notes);
      if !Notes.Accepts(orders, ids) {
        return false;
      }
      Notes.ReorderPlaces(NoteState(), ids);
      PlaceNotes(notes, Notes.Positions(ids));
      return true;
    }

    method PlaceNotes(notes: seq<Notes.Id>, position: map<Notes.Id, int>)
      requires Listing.SameIds(notes, orders) && forall id :: id in orders ==> id in position
      modifies this`orders
      ensures orders == Notes.Placed(old(orders), position)
    {
      for i := 0 to |notes|
        invariant forall id :: id in orders <==> id in old(orders)
        invariant forall id :: id in orders ==> orders[id] == (if id in notes[..i] then position[id] else old(orders)[id])
      {
        assert notes[i] in notes;
        assert notes[..i + 1] == notes[..i] + [notes[i]];
        orders := orders[notes[i] := position[notes[i]]];
      }
      assert notes[..|notes|] == notes;
    }
  }

  lemma OneMoreSwept(swept: seq<Material>, i: nat)
    requires i < |swept|
    ensures Materials.FilesOf(swept[..i + 1]) == Materials.FilesOf(swept[..i]) + {swept[i].file}
    ensures Materials.IdsOf(swept[..i + 1]) == Materials.IdsOf(swept[..i]) + {swept[i].id}
  {
    assert swept[..i + 1] == swept[..i] + [swept[i]];
  }
}

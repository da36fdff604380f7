/** The reconciliation that ends the script (joplin-anki-sync.py, lines 292-338): the
    cards whose front is no longer wanted are deleted by note id, the wanted titles Anki
    does not have yet are added as new notes in their deck, and every title both sides
    have is updated when its stored back differs from the wanted content. The three
    requests are modelled by the values they send; the Anki side is modelled as the dict
    `anki_cards` it is read into, the cards of the selected decks by front. */
module Reconciler {

  import opened Sectionizer
  import opened Aggregation

  /** One entry of the `addNotes` request (lines 309-313), of the note type `Basic`. */
  datatype NewNote = NewNote(deck: string, front: string, back: string)

  /** The `updateNote` request of lines 326-334. */
  datatype UpdateRequest = UpdateRequest(id: int, front: string, back: string)

  // ---------------------------------------------------------------------------------
  // The three title sets

  /** Line 292: the titles only Anki has. */
  function ToDelete(current: map<string, Card>, desired: map<string, Wanted>): set<string>
  {
    current.Keys - desired.Keys
  }

  /** Line 303: the titles only Joplin has. */
  function ToAdd(current: map<string, Card>, desired: map<string, Wanted>): set<string>
  {
    desired.Keys - current.Keys
  }

  /** Line 324: the titles both have. */
  function Common(current: map<string, Card>, desired: map<string, Wanted>): set<string>
  {
    current.Keys * desired.Keys
  }

  /** The three sets split the titles of both sides without overlap. */
  lemma Partition(current: map<string, Card>, desired: map<string, Wanted>)
    ensures ToDelete(current, desired) * ToAdd(current, desired) == {}
    ensures ToDelete(current, desired) * Common(current, desired) == {}
    ensures ToAdd(current, desired) * Common(current, desired) == {}
    ensures ToDelete(current, desired) + Common(current, desired) == current.Keys
    ensures ToAdd(current, desired) + Common(current, desired) == desired.Keys
  {
  }

  // ---------------------------------------------------------------------------------
  // The requests

  /** Line 299: the note ids of the titles `titles`, in their order. */
  function DeleteIds(current: map<string, Card>, titles: seq<string>): (ids: seq<int>)
    requires forall t :: t in titles ==> t in current
    ensures |ids| == |titles|
    ensures forall i :: 0 <= i < |titles| ==> ids[i] == current[titles[i]].id
  {
    if titles == [] then []
    else DeleteIds(current, titles[..|titles| - 1]) + [current[titles[|titles| - 1]].id]
  }

  /** Some note of `notes` has the front `t`. */
  ghost predicate Adds(notes: seq<NewNote>, t: string)
  {
    exists i :: 0 <= i < |notes| && notes[i].front == t
  }

  /** Lines 308-316: a new note for each title of `items` (the wanted titles in the
      dict's order) that is in `toAdd`, with its deck, its title as the front and its
      content as the back. */
  function AddRequests(desired: map<string, Wanted>, items: seq<string>, toAdd: set<string>): (notes: seq<NewNote>)
    requires forall t :: t in items ==> t in desired
    ensures forall i :: 0 <= i < |notes| ==>
              notes[i].front in toAdd && notes[i].front in items
              && notes[i] == NewNote(desired[notes[i].front].deck, notes[i].front, desired[notes[i].front].content)
    ensures forall t :: t in items && t in toAdd ==> Adds(notes, t)
  {
    if items == [] then []
    else
      var t := items[|items| - 1];
      var before := AddRequests(desired, items[..|items| - 1], toAdd);
      var notes := before + (if t in toAdd then [NewNote(desired[t].deck, t, desired[t].content)] else []);
      assert forall s :: s in items[..|items| - 1] && s in toAdd ==> Adds(notes, s) by {
        forall s | s in items[..|items| - 1] && s in toAdd
          ensures Adds(notes, s)
        {
          var i :| 0 <= i < |before| && before[i].front == s;
          assert notes[i] == before[i];
        }
      }
      assert t in toAdd ==> notes[|before|].front == t;
      assert forall s :: s in items ==> s == t || s in items[..|items| - 1];
      notes
  }

  /** Lines 324-325 for the common titles in the order `common`: those whose stored back
      differs from the wanted content. */
  function Changed(current: map<string, Card>, desired: map<string, Wanted>, common: seq<string>): (r: seq<string>)
    requires forall t :: t in common ==> t in current && t in desired
    ensures forall t :: t in r ==> t in common
  {
    if common == [] then []
    else
      var t := common[|common| - 1];
      Changed(current, desired, common[..|common| - 1]) + (if current[t].back != desired[t].content then [t] else [])
  }

  /** The update requests for the titles `titles`: each card, by its note id, gets the
      title as front and the wanted content as back. */
  function UpdateRequests(current: map<string, Card>, desired: map<string, Wanted>, titles: seq<string>)
    : (rs: seq<UpdateRequest>)
    requires forall t :: t in titles ==> t in current && t in desired
    ensures |rs| == |titles|
    ensures forall i :: 0 <= i < |titles| ==> rs[i] == UpdateRequest(current[titles[i]].id, titles[i], desired[titles[i]].content)
  {
    if titles == [] then []
    else
      var t := titles[|titles| - 1];
      UpdateRequests(current, desired, titles[..|titles| - 1]) + [UpdateRequest(current[t].id, t, desired[t].content)]
  }

  /** Lines 324-337, with the common titles iterated in the order `common`: an update is
      sent and the title appended to `updated` for each title whose back changed. */
  method IssueUpdates(current: map<string, Card>, desired: map<string, Wanted>, common: seq<string>)
    returns (requests: seq<UpdateRequest>, updated: seq<string>)
    requires forall t :: t in common ==> t in current && t in desired
    requires Enumerates(common, Common(current, desired))
    ensures updated == Changed(current, desired, common)
    ensures requests == UpdateRequests(current, desired, updated)
  {
    requests, updated := [], [];
    for j := 0 to |common|
      invariant updated == Changed(current, desired, common[..j])
      invariant requests == UpdateRequests(current, desired, updated)
    {
      var title := common[j];
      assert common[..j + 1][..j] == common[..j];
      if current[title].back != desired[title].content {
        requests := requests + [UpdateRequest(current[title].id, title, desired[title].content)];
        updated := updated + [title];
        assert updated[..|updated| - 1] == Changed(current, desired, common[..j]);
      }
    }
    assert common[..|common|] == common;
  }

  /** The updated titles are exactly the common titles whose back differs. */
  lemma {:induction false} ChangedSound(current: map<string, Card>, desired: map<string, Wanted>, common: seq<string>, t: string)
    requires forall s :: s in common ==> s in current && s in desired
    requires t in Changed(current, desired, common)
    ensures t in common && current[t].back != desired[t].content
  {
    if common != [] {
      var last := common[|common| - 1];
      if t != last || current[last].back == desired[last].content {
        assert t in Changed(current, desired, common[..|common| - 1]);
        ChangedSound(current, desired, common[..|common| - 1], t);
      }
    }
  }

  lemma {:induction false} ChangedComplete(current: map<string, Card>, desired: map<string, Wanted>, common: seq<string>, t: string)
    requires forall s :: s in common ==> s in current && s in desired
    requires t in common && current[t].back != desired[t].content
    ensures t in Changed(current, desired, common)
  {
    var last := common[|common| - 1];
    if t != last {
      assert t in common[..|common| - 1];
      ChangedComplete(current, desired, common[..|common| - 1], t);
    }
  }

  /** Lines 292-337: the ids to delete, the notes to add, and the updates with the
      titles they are for, with the three sets iterated in the orders given. */
  method Reconcile(current: map<string, Card>, desired: map<string, Wanted>,
                   deleting: seq<string>, items: seq<string>, common: seq<string>)
    returns (deleteIds: seq<int>, newNotes: seq<NewNote>, updates: seq<UpdateRequest>, updated: seq<string>)
    requires forall t :: t in deleting ==> t in current
    requires forall t :: t in items ==> t in desired
    requires forall t :: t in common ==> t in current && t in desired
    requires Enumerates(deleting, ToDelete(current, desired)) && Enumerates(items, desired.Keys)
    requires Enumerates(common, Common(current, desired))
    ensures deleteIds == DeleteIds(current, deleting)
    ensures newNotes == AddRequests(desired, items, ToAdd(current, desired))
    ensures updated == Changed(current, desired, common)
    ensures updates == UpdateRequests(current, desired, updated)
  {
    deleteIds := DeleteIds(current, deleting);
    var toAdd := desired.Keys - current.Keys;
    newNotes := AddRequests(desired, items, toAdd);
    updates, updated := IssueUpdates(current, desired, common);
  }

  // ---------------------------------------------------------------------------------
  // What the requests do to the cards

  /** `deleteNotes`: the cards whose note id is listed are gone. */
  function DeleteNotes(store: map<string, Card>, ids: seq<int>): (s: map<string, Card>)
    ensures forall t :: t in s <==> t in store && store[t].id !in ids
    ensures forall t :: t in s ==> s[t] == store[t]
  {
    map t | t in store && store[t].id !in ids :: store[t]
  }

  /** `addNotes`: a card per new note, with the note id Anki hands out for it
      (`newIds`), in the order of the request. */
  function AddNotes(store: map<string, Card>, notes: seq<NewNote>, newIds: seq<int>): map<string, Card>
    requires |newIds| == |notes|
  {
    if notes == [] then store
    else
      var n := notes[|notes| - 1];
      AddNotes(store, notes[..|notes| - 1], newIds[..|notes| - 1])[n.front := Card(newIds[|notes| - 1], n.back)]
  }

  /** `updateNote`: the card of the request's front gets the new back, provided it is
      the card with the request's note id. */
  function UpdateNote(store: map<string, Card>, r: UpdateRequest): (s: map<string, Card>)
    ensures s.Keys == store.Keys
  {
    if r.front in store && store[r.front].id == r.id then store[r.front := Card(r.id, r.back)] else store
  }

  /** The update requests, sent one after the other. */
  function UpdateNotes(store: map<string, Card>, rs: seq<UpdateRequest>): (s: map<string, Card>)
    ensures s.Keys == store.Keys
  {
    if rs == [] then store else UpdateNote(UpdateNotes(store, rs[..|rs| - 1]), rs[|rs| - 1])
  }

  /** The cards after lines 292-337, with `newIds` the ids of the added notes. */
  function Sync(current: map<string, Card>, desired: map<string, Wanted>,
                deleting: seq<string>, items: seq<string>, common: seq<string>, newIds: seq<int>): map<string, Card>
    requires forall t :: t in deleting ==> t in current
    requires forall t :: t in items ==> t in desired
    requires forall t :: t in common ==> t in current && t in desired
    requires Enumerates(deleting, ToDelete(current, desired)) && Enumerates(items, desired.Keys)
    requires Enumerates(common, Common(current, desired))
    requires |newIds| == |AddRequests(desired, items, ToAdd(current, desired))|
  {
    var afterDelete := DeleteNotes(current, DeleteIds(current, deleting));
    var afterAdd := AddNotes(afterDelete, AddRequests(desired, items, ToAdd(current, desired)), newIds);
    UpdateNotes(afterAdd, UpdateRequests(current, desired, Changed(current, desired, common)))
  }

  /** No two cards share a note id. */
  ghost predicate UniqueIds(store: map<string, Card>)
  {
    forall a, b :: a in store && b in store && store[a].id == store[b].id ==> a == b
  }

  // ---------------------------------------------------------------------------------
  // Lemmas about the requests

  /** Deleting the ids of `ToDelete` leaves exactly the common titles, untouched. */
  lemma DeletesExactly(current: map<string, Card>, desired: map<string, Wanted>, deleting: seq<string>)
    requires UniqueIds(current) && Enumerates(deleting, ToDelete(current, desired))
    ensures var s := DeleteNotes(current, DeleteIds(current, deleting));
      s.Keys == Common(current, desired) && forall t :: t in s ==> s[t] == current[t]
  {
    var ids := DeleteIds(current, deleting);
    forall t | t in current
      ensures current[t].id in ids <==> t in deleting
    {
      if current[t].id in ids {
        var i :| 0 <= i < |ids| && ids[i] == current[t].id;
        assert current[deleting[i]].id == current[t].id;
      }
      if t in deleting {
        var i :| 0 <= i < |deleting| && deleting[i] == t;
        assert ids[i] == current[t].id;
      }
    }
  }

  /** The titles after `addNotes`: those before and the fronts of the new notes. */
  lemma {:induction false} AddNotesKeys(store: map<string, Card>, notes: seq<NewNote>, newIds: seq<int>, t: string)
    requires |newIds| == |notes|
    ensures t in AddNotes(store, notes, newIds) <==> t in store || Adds(notes, t)
  {
    if notes != [] {
      var init := notes[..|notes| - 1];
      AddNotesKeys(store, init, newIds[..|notes| - 1], t);
      if Adds(notes, t) && notes[|notes| - 1].front != t {
        var i :| 0 <= i < |notes| && notes[i].front == t;
        assert init[i].front == t;
      }
      if Adds(init, t) {
        var i :| 0 <= i < |init| && init[i].front == t;
        assert notes[i].front == t;
      }
    }
  }

  /** A card no new note is for keeps its value. */
  lemma {:induction false} AddNotesKept(store: map<string, Card>, notes: seq<NewNote>, newIds: seq<int>, t: string)
    requires |newIds| == |notes|
    requires t in store && forall i :: 0 <= i < |notes| ==> notes[i].front != t
    ensures t in AddNotes(store, notes, newIds) && AddNotes(store, notes, newIds)[t] == store[t]
  {
    if notes != [] {
      AddNotesKept(store, notes[..|notes| - 1], newIds[..|notes| - 1], t);
    }
  }

  /** A title the new notes are for gets their back. */
  lemma {:induction false} AddNotesBack(store: map<string, Card>, notes: seq<NewNote>, newIds: seq<int>, t: string, back: string)
    requires |newIds| == |notes| && Adds(notes, t)
    requires forall i :: 0 <= i < |notes| && notes[i].front == t ==> notes[i].back == back
    ensures t in AddNotes(store, notes, newIds) && AddNotes(store, notes, newIds)[t].back == back
  {
    var init := notes[..|notes| - 1];
    if notes[|notes| - 1].front != t {
      var i :| 0 <= i < |notes| && notes[i].front == t;
      assert init[i].front == t;
      AddNotesBack(store, init, newIds[..|notes| - 1], t, back);
    }
  }

  /** A card no update is for keeps its value. */
  lemma {:induction false} UpdateNotesKept(store: map<string, Card>, rs: seq<UpdateRequest>, t: string)
    requires t in store && forall i :: 0 <= i < |rs| ==> rs[i].front != t
    ensures UpdateNotes(store, rs)[t] == store[t]
  {
    if rs != [] {
      UpdateNotesKept(store, rs[..|rs| - 1], t);
    }
  }

  /** A card an update with its own note id is for gets that update's back. */
  lemma {:induction false} UpdateNotesSet(store: map<string, Card>, rs: seq<UpdateRequest>, t: string, back: string)
    requires t in store && exists i :: 0 <= i < |rs| && rs[i].front == t
    requires forall i :: 0 <= i < |rs| && rs[i].front == t ==> rs[i].id == store[t].id && rs[i].back == back
    ensures UpdateNotes(store, rs)[t] == Card(store[t].id, back)
  {
    var init := rs[..|rs| - 1];
    var last := rs[|rs| - 1];
    if last.front != t {
      var i :| 0 <= i < |rs| && rs[i].front == t;
      assert init[i].front == t;
      UpdateNotesSet(store, init, t, back);
    } else if exists i :: 0 <= i < |init| && init[i].front == t {
      UpdateNotesSet(store, init, t, back);
    } else {
      UpdateNotesKept(store, init, t);
    }
  }

  // ---------------------------------------------------------------------------------
  // The sync reaches the wanted cards

  /** After the deletes and the adds, the titles are the wanted ones; the common titles
      still hold their old cards and the new titles hold their wanted content. */
  lemma AfterAdd(current: map<string, Card>, desired: map<string, Wanted>,
                 deleting: seq<string>, items: seq<string>, newIds: seq<int>, t: string)
    requires UniqueIds(current)
    requires Enumerates(deleting, ToDelete(current, desired)) && Enumerates(items, desired.Keys)
    requires |newIds| == |AddRequests(desired, items, ToAdd(current, desired))|
    ensures var s := AddNotes(DeleteNotes(current, DeleteIds(current, deleting)),
                              AddRequests(desired, items, ToAdd(current, desired)), newIds);
      (t in s <==> t in desired)
      && (t in current && t in desired ==> s[t] == current[t])
      && (t !in current && t in desired ==> s[t].back == desired[t].content)
  {
    var afterDelete := DeleteNotes(current, DeleteIds(current, deleting));
    var notes := AddRequests(desired, items, ToAdd(current, desired));
    DeletesExactly(current, desired, deleting);
    AddNotesKeys(afterDelete, notes, newIds, t);
    if t in current && t in desired {
      AddNotesKept(afterDelete, notes, newIds, t);
    } else if t in desired {
      AddNotesBack(afterDelete, notes, newIds, t, desired[t].content);
    }
  }

  /** The updates of the changed common titles, sent to cards that hold the common
      titles' note ids and the new titles' wanted content, give every wanted title its
      content, keep its note id, and leave a card whose back agreed untouched. */
  lemma {:induction false} AfterUpdate(current: map<string, Card>, desired: map<string, Wanted>, common: seq<string>,
                                       store: map<string, Card>, t: string)
    requires Enumerates(common, Common(current, desired))
    requires t in store && t in desired
    requires t in current ==> store[t] == current[t]
    requires t !in current ==> store[t].back == desired[t].content
    ensures var s := UpdateNotes(store, UpdateRequests(current, desired, Changed(current, desired, common)));
      s[t].back == desired[t].content
      && (t in current ==> s[t].id == current[t].id)
      && (t in current && current[t].back == desired[t].content ==> s[t] == current[t])
  {
    var changed := Changed(current, desired, common);
    var rs := UpdateRequests(current, desired, changed);
    if t in current && current[t].back != desired[t].content {
      ChangedComplete(current, desired, common, t);
      var j :| 0 <= j < |changed| && changed[j] == t;
      assert rs[j].front == t;
      forall i | 0 <= i < |rs| && rs[i].front == t
        ensures rs[i].id == store[t].id && rs[i].back == desired[t].content
      {
        assert changed[i] == t;
      }
      UpdateNotesSet(store, rs, t, desired[t].content);
    } else {
      forall i | 0 <= i < |rs|
        ensures rs[i].front != t
      {
        assert rs[i].front == changed[i];
        if changed[i] == t {
          ChangedSound(current, desired, common, t);
        }
      }
      UpdateNotesKept(store, rs, t);
    }
  }

  /** Lines 292-337 bring the cards to the wanted state: their titles are exactly the
      wanted ones, every back is the wanted content, a card kept keeps its note id, and
      a card whose back already agreed is left untouched. */
  lemma SyncReachesDesired(current: map<string, Card>, desired: map<string, Wanted>,
                           deleting: seq<string>, items: seq<string>, common: seq<string>, newIds: seq<int>)
    requires UniqueIds(current)
    requires Enumerates(deleting, ToDelete(current, desired)) && Enumerates(items, desired.Keys)
    requires Enumerates(common, Common(current, desired))
    requires |newIds| == |AddRequests(desired, items, ToAdd(current, desired))|
    ensures var s := Sync(current, desired, deleting, items, common, newIds);
      s.Keys == desired.Keys
      && (forall t :: t in s ==> s[t].back == desired[t].content)
      && (forall t :: t in current && t in desired ==> s[t].id == current[t].id)
      && (forall t :: t in current && t in desired && current[t].back == desired[t].content ==> s[t] == current[t])
  {
    var s := Sync(current, desired, deleting, items, common, newIds);
    forall t
      ensures t in s <==> t in desired
      ensures t in desired ==> s[t].back == desired[t].content
                               && (t in current ==> s[t].id == current[t].id)
                               && (t in current && current[t].back == desired[t].content ==> s[t] == current[t])
    {
      SyncAt(current, desired, deleting, items, common, newIds, t);
    }
  }

  /** The card of one title after the sync. */
  lemma SyncAt(current: map<string, Card>, desired: map<string, Wanted>,
               deleting: seq<string>, items: seq<string>, common: seq<string>, newIds: seq<int>, t: string)
    requires UniqueIds(current)
    requires Enumerates(deleting, ToDelete(current, desired)) && Enumerates(items, desired.Keys)
    requires Enumerates(common, Common(current, desired))
    requires |newIds| == |AddRequests(desired, items, ToAdd(current, desired))|
    ensures var s := Sync(current, desired, deleting, items, common, newIds);
      (t in s <==> t in desired)
      && (t in desired ==> s[t].back == desired[t].content
                           && (t in current ==> s[t].id == current[t].id)
                           && (t in current && current[t].back == desired[t].content ==> s[t] == current[t]))
  {
    var afterAdd := AddNotes(DeleteNotes(current, DeleteIds(current, deleting)),
                             AddRequests(desired, items, ToAdd(current, desired)), newIds);
    AfterAdd(current, desired, deleting, items, newIds, t);
    if t in desired {
      AfterUpdate(current, desired, common, afterAdd, t);
    }
  }

  /** Against cards that already are the wanted ones there is nothing to delete, add or
      update. */
  lemma NothingLeft(store: map<string, Card>, desired: map<string, Wanted>, again: seq<string>)
    requires store.Keys == desired.Keys && forall t :: t in store ==> store[t].back == desired[t].content
    requires forall t :: t in again ==> t in store && t in desired
    ensures ToDelete(store, desired) == {} && ToAdd(store, desired) == {} && Changed(store, desired, again) == []
  {
    var r := Changed(store, desired, again);
    if r != [] {
      ChangedSound(store, desired, again, r[0]);
    }
  }

  /** A second run against the synced cards has nothing left to do. */
  lemma SyncIdempotent(current: map<string, Card>, desired: map<string, Wanted>,
                       deleting: seq<string>, items: seq<string>, common: seq<string>, newIds: seq<int>,
                       synced: map<string, Card>, again: seq<string>)
    requires UniqueIds(current)
    requires Enumerates(deleting, ToDelete(current, desired)) && Enumerates(items, desired.Keys)
    requires Enumerates(common, Common(current, desired))
    requires |newIds| == |AddRequests(desired, items, ToAdd(current, desired))|
    requires synced == Sync(current, desired, deleting, items, common, newIds)
    requires Enumerates(again, Common(synced, desired))
    ensures ToDelete(synced, desired) == {} && ToAdd(synced, desired) == {} && Changed(synced, desired, again) == []
  {
    SyncReachesDesired(current, desired, deleting, items, common, newIds);
    NothingLeft(synced, desired, again);
  }

  // ---------------------------------------------------------------------------------
  // Example

  const Stored: map<string, Card> := map["A" := Card(1, "x"), "B" := Card(2, "y")]
  const Wished: map<string, Wanted> := map["B" := Wanted("y", "Deck1"), "C" := Wanted("z", "Deck1")]

  /** Anki holds A and B, Joplin wants B unchanged and a new C: the note of A (id 1) is
      deleted, C is added with back `z` in `Deck1`, and B needs no update. */
  lemma ReconcileExample()
    ensures ToDelete(Stored, Wished) == {"A"} && DeleteIds(Stored, ["A"]) == [1]
    ensures ToAdd(Stored, Wished) == {"C"}
    ensures AddRequests(Wished, ["B", "C"], {"C"}) == [NewNote("Deck1", "C", "z")]
    ensures Common(Stored, Wished) == {"B"} && Changed(Stored, Wished, ["B"]) == []
  {
    assert Stored.Keys == {"A", "B"};
    assert Wished.Keys == {"B", "C"};
    assert ["B", "C"][..1] == ["B"];
    assert ["B", "C"][..1][..0] == [];
    assert AddRequests(Wished, ["B"], {"C"}) == [];
  }
}

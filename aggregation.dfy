/** The merge of the top-level script (joplin-anki-sync.py, lines 276-290): for every
    resolved folder, the cards already in the Anki deck of that name are gathered into
    `anki_cards`, and every note of the Joplin folder whose title is not excluded is
    sectionized, its sections becoming the wanted cards of `joplin_notes`, each with the
    content of its section and the folder's root title as its deck. Both dicts are
    grown with `|=`, so a later folder or note overwrites an earlier one's entry under
    the same title. */
module Aggregation {

  import opened Strings
  import opened Sectionizer
  import opened FolderTree

  /** A card of an Anki deck (`anki_deck_parser`): its note id and its back. */
  datatype Card = Card(id: int, back: string)

  /** A wanted card: the section content for its back and the deck it belongs in. */
  datatype Wanted = Wanted(content: string, deck: string)

  /** A note of a Joplin folder (`joplin_folder_parser`): its title and its id. */
  datatype NoteRef = NoteRef(name: string, id: string)

  /** What the script receives over HTTP, as functions of what it asks for: the notes
      of a folder id (the items of the dict `joplin_folder_parser` returns), the body of
      a note id split into lines, the order in which the note's header set is iterated,
      and the cards of a deck name, by front. */
  datatype Services = Services(
    notesIn: string -> seq<NoteRef>,
    body: string -> seq<string>,
    headerOrder: string -> seq<string>,
    deck: string -> map<string, Card>)

  /** The header order handed out for the note `id` lists exactly its headers outside
      fences. */
  ghost predicate OrderedFor(svc: Services, id: string)
  {
    Enumerates(svc.headerOrder(id), RealHeaders(svc.body(id)))
  }

  /** ... and so for every note. */
  ghost predicate WellOrdered(svc: Services)
  {
    forall id :: OrderedFor(svc, id)
  }

  // ---------------------------------------------------------------------------------
  // Merging with `|=`

  /** The dicts `ms` merged from left to right with `|=`. */
  function Union<V>(ms: seq<map<string, V>>): map<string, V>
  {
    if ms == [] then map[] else Union(ms[..|ms| - 1]) + ms[|ms| - 1]
  }

  lemma {:induction false} UnionAppend<V>(ms: seq<map<string, V>>, m: map<string, V>)
    ensures Union(ms + [m]) == Union(ms) + m
  {
    assert (ms + [m])[..|ms|] == ms;
  }

  /** A key of any of the dicts is a key of the merge. */
  lemma {:induction false} UnionComplete<V>(ms: seq<map<string, V>>, i: nat, t: string)
    requires i < |ms| && t in ms[i]
    ensures t in Union(ms)
  {
    if i < |ms| - 1 {
      UnionComplete(ms[..|ms| - 1], i, t);
    }
  }

  /** A key of the merge comes from one of the dicts, with that dict's value. */
  lemma {:induction false} UnionSound<V>(ms: seq<map<string, V>>, t: string)
    requires t in Union(ms)
    ensures exists i :: 0 <= i < |ms| && t in ms[i] && Union(ms)[t] == ms[i][t]
  {
    var init := ms[..|ms| - 1];
    if t !in ms[|ms| - 1] {
      UnionSound(init, t);
      var i :| 0 <= i < |init| && t in init[i] && Union(init)[t] == init[i][t];
      assert ms[i] == init[i];
    }
  }

  /** The later dict wins: the value is the one of the last dict holding the key. */
  lemma {:induction false} UnionLast<V>(ms: seq<map<string, V>>, i: nat, t: string)
    requires i < |ms| && t in ms[i]
    requires forall j :: i < j < |ms| ==> t !in ms[j]
    ensures t in Union(ms) && Union(ms)[t] == ms[i][t]
  {
    if i < |ms| - 1 {
      UnionLast(ms[..|ms| - 1], i, t);
    }
  }

  lemma MapUnionAssoc<V>(a: map<string, V>, b: map<string, V>, c: map<string, V>)
    ensures (a + b) + c == a + (b + c)
  {
  }

  // ---------------------------------------------------------------------------------
  // The wanted cards

  /** The sections `joplin_note_parser` returns for the note `n`. */
  function NoteSections(svc: Services, excludedHeaders: seq<string>, n: NoteRef): map<string, string>
  {
    var lines := svc.body(n.id);
    Sections(lines, FencedSet(lines), n.name, excludedHeaders, svc.headerOrder(n.id))
  }

  /** `joplin_note_parser` as a function of the note. */
  function Parser(svc: Services, excludedHeaders: seq<string>): NoteRef -> map<string, string>
  {
    n => NoteSections(svc, excludedHeaders, n)
  }

  /** `parse` gives the sections of the note `n`. */
  ghost predicate ParsesAs(svc: Services, excludedHeaders: seq<string>, parse: NoteRef -> map<string, string>, n: NoteRef)
  {
    parse(n) == NoteSections(svc, excludedHeaders, n)
  }

  /** ... and so for every note. */
  ghost predicate IsParser(svc: Services, excludedHeaders: seq<string>, parse: NoteRef -> map<string, string>)
  {
    forall n :: ParsesAs(svc, excludedHeaders, parse, n)
  }

  lemma ParserIsParser(svc: Services, excludedHeaders: seq<string>)
    ensures IsParser(svc, excludedHeaders, Parser(svc, excludedHeaders))
  {
    forall n
      ensures ParsesAs(svc, excludedHeaders, Parser(svc, excludedHeaders), n)
    {
    }
  }

  /** Lines 284-290: every section becomes a wanted card in the deck `root`. */
  function InDeck(sections: map<string, string>, root: string): (m: map<string, Wanted>)
    ensures m.Keys == sections.Keys
    ensures forall t :: t in m ==> m[t] == Wanted(sections[t], root)
  {
    map t | t in sections :: Wanted(sections[t], root)
  }

  /** What one note adds, nothing for a note whose title starts with an excluded prefix
      (lines 281-282). */
  function NoteCards(parse: NoteRef -> map<string, string>, excludedNotes: seq<string>, n: NoteRef, root: string)
    : map<string, Wanted>
  {
    if StartsWithAny(n.name, excludedNotes) then map[] else InDeck(parse(n), root)
  }

  /** What the notes `refs` of a folder add, one dict per note. */
  function NoteMaps(parse: NoteRef -> map<string, string>, excludedNotes: seq<string>, refs: seq<NoteRef>, root: string)
    : (ms: seq<map<string, Wanted>>)
    ensures |ms| == |refs|
    ensures forall i :: 0 <= i < |refs| ==> ms[i] == NoteCards(parse, excludedNotes, refs[i], root)
  {
    if refs == [] then []
    else NoteMaps(parse, excludedNotes, refs[..|refs| - 1], root) + [NoteCards(parse, excludedNotes, refs[|refs| - 1], root)]
  }

  /** What the folder recorded as `entry` (its id and root title) adds. */
  function FolderCards(notesIn: string -> seq<NoteRef>, parse: NoteRef -> map<string, string>,
                       excludedNotes: seq<string>, entry: Entry): map<string, Wanted>
  {
    Union(NoteMaps(parse, excludedNotes, notesIn(entry.0), entry.1))
  }

  /** What the folders of `order` add, one dict per folder. */
  function FolderMaps(notesIn: string -> seq<NoteRef>, parse: NoteRef -> map<string, string>,
                      excludedNotes: seq<string>, folders: map<string, Entry>, order: seq<string>)
    : (ms: seq<map<string, Wanted>>)
    requires forall f :: f in order ==> f in folders
    ensures |ms| == |order|
    ensures forall i :: 0 <= i < |order| ==> ms[i] == FolderCards(notesIn, parse, excludedNotes, folders[order[i]])
  {
    if order == [] then []
    else
      FolderMaps(notesIn, parse, excludedNotes, folders, order[..|order| - 1])
      + [FolderCards(notesIn, parse, excludedNotes, folders[order[|order| - 1]])]
  }

  /** `joplin_notes` once every folder of `order` has been handled. */
  function Desired(svc: Services, excludedHeaders: seq<string>, excludedNotes: seq<string>,
                   folders: map<string, Entry>, order: seq<string>): map<string, Wanted>
    requires forall f :: f in order ==> f in folders
  {
    Union(FolderMaps(svc.notesIn, Parser(svc, excludedHeaders), excludedNotes, folders, order))
  }

  // ---------------------------------------------------------------------------------
  // The cards already in Anki

  /** The decks named in `order`, one dict per deck. */
  function DeckMaps(deck: string -> map<string, Card>, order: seq<string>): (ms: seq<map<string, Card>>)
    ensures |ms| == |order|
    ensures forall i :: 0 <= i < |order| ==> ms[i] == deck(order[i])
  {
    if order == [] then [] else DeckMaps(deck, order[..|order| - 1]) + [deck(order[|order| - 1])]
  }

  /** `anki_cards` once every folder of `order` has been handled. */
  function Current(svc: Services, order: seq<string>): map<string, Card>
  {
    Union(DeckMaps(svc.deck, order))
  }

  // ---------------------------------------------------------------------------------
  // The loops

  /** Lines 276-290, with the folders iterated in the order `order`, which lists the keys
      of `folders`. */
  method Collect(svc: Services, folders: map<string, Entry>, order: seq<string>,
                 excludedHeaders: seq<string>, excludedNotes: seq<string>)
    returns (cards: map<string, Card>, notes: map<string, Wanted>)
    requires forall f :: f in order ==> f in folders
    requires Enumerates(order, folders.Keys)
    requires WellOrdered(svc)
    ensures cards == Current(svc, order)
    ensures notes == Desired(svc, excludedHeaders, excludedNotes, folders, order)
  {
    ghost var parse := Parser(svc, excludedHeaders);
    ParserIsParser(svc, excludedHeaders);
    cards, notes := map[], map[];
    for k := 0 to |order|
      invariant cards == Union(DeckMaps(svc.deck, order[..k]))
      invariant notes == Union(FolderMaps(svc.notesIn, parse, excludedNotes, folders, order[..k]))
    {
      var name := order[k];
      var entry := folders[name];
      FolderStep(svc, parse, excludedNotes, folders, order, k);
      cards := cards + svc.deck(name);
      notes := CollectFolder(svc, parse, entry, excludedHeaders, excludedNotes, notes);
    }
    assert order[..|order|] == order;
  }

  /** One folder more: its deck and its notes are merged last. */
  lemma {:induction false} FolderStep(svc: Services, parse: NoteRef -> map<string, string>, excludedNotes: seq<string>,
                                      folders: map<string, Entry>, order: seq<string>, k: nat)
    requires forall f :: f in order ==> f in folders
    requires k < |order|
    ensures Union(DeckMaps(svc.deck, order[..k + 1])) == Union(DeckMaps(svc.deck, order[..k])) + svc.deck(order[k])
    ensures Union(FolderMaps(svc.notesIn, parse, excludedNotes, folders, order[..k + 1]))
         == Union(FolderMaps(svc.notesIn, parse, excludedNotes, folders, order[..k]))
            + FolderCards(svc.notesIn, parse, excludedNotes, folders[order[k]])
  {
    var prefix := order[..k + 1];
    assert prefix[..k] == order[..k] && prefix[k] == order[k];
    UnionAppend(DeckMaps(svc.deck, order[..k]), svc.deck(order[k]));
    UnionAppend(FolderMaps(svc.notesIn, parse, excludedNotes, folders, order[..k]),
                FolderCards(svc.notesIn, parse, excludedNotes, folders[order[k]]));
  }

  /** Lines 280-290 for one folder: its notes, not excluded, are sectionized in turn and
      their sections merged into `notes`. */
  method CollectFolder(svc: Services, ghost parse: NoteRef -> map<string, string>, entry: Entry,
                       excludedHeaders: seq<string>, excludedNotes: seq<string>, notes: map<string, Wanted>)
    returns (result: map<string, Wanted>)
    requires WellOrdered(svc) && IsParser(svc, excludedHeaders, parse)
    ensures result == notes + FolderCards(svc.notesIn, parse, excludedNotes, entry)
  {
    var refs := svc.notesIn(entry.0);
    result := notes;
    for j := 0 to |refs|
      invariant result == notes + Union(NoteMaps(parse, excludedNotes, refs[..j], entry.1))
    {
      NoteStep(parse, excludedNotes, refs, j, entry.1, notes, result);
      result := AddNote(svc, parse, excludedHeaders, excludedNotes, refs[j], entry.1, result);
    }
    assert refs[..|refs|] == refs;
  }

  /** Lines 281-290 for one note: unless its title is excluded, its sections are merged
      into `notes` as cards of the deck `root`. */
  method AddNote(svc: Services, ghost parse: NoteRef -> map<string, string>,
                 excludedHeaders: seq<string>, excludedNotes: seq<string>, n: NoteRef, root: string,
                 notes: map<string, Wanted>)
    returns (result: map<string, Wanted>)
    requires WellOrdered(svc) && IsParser(svc, excludedHeaders, parse)
    ensures result == notes + NoteCards(parse, excludedNotes, n, root)
  {
    if !StartsWithAny(n.name, excludedNotes) {
      var sections := ParseRef(svc, excludedHeaders, parse, n);
      result := notes + InDeck(sections, root);
    } else {
      result := notes;
      assert notes + map[] == notes;
    }
  }

  /** One note more: what it adds is merged last. */
  lemma {:induction false} NoteStep(parse: NoteRef -> map<string, string>, excludedNotes: seq<string>,
                                    refs: seq<NoteRef>, j: nat, root: string,
                                    notes: map<string, Wanted>, result: map<string, Wanted>)
    requires j < |refs|
    requires result == notes + Union(NoteMaps(parse, excludedNotes, refs[..j], root))
    ensures result + NoteCards(parse, excludedNotes, refs[j], root)
         == notes + Union(NoteMaps(parse, excludedNotes, refs[..j + 1], root))
  {
    var prefix := refs[..j + 1];
    assert prefix[..j] == refs[..j] && prefix[j] == refs[j];
    var ms := NoteMaps(parse, excludedNotes, refs[..j], root);
    var added := NoteCards(parse, excludedNotes, refs[j], root);
    UnionAppend(ms, added);
    MapUnionAssoc(notes, Union(ms), added);
  }

  /** Line 283: the note is fetched and sectionized. */
  method ParseRef(svc: Services, excludedHeaders: seq<string>, ghost parse: NoteRef -> map<string, string>, n: NoteRef)
    returns (sections: map<string, string>)
    requires WellOrdered(svc) && IsParser(svc, excludedHeaders, parse)
    ensures sections == parse(n)
  {
    assert OrderedFor(svc, n.id) && ParsesAs(svc, excludedHeaders, parse, n);
    sections := ParseNote(svc.body(n.id), n.name, excludedHeaders, svc.headerOrder(n.id));
  }

  // ---------------------------------------------------------------------------------
  // What the merge holds

  /** Every card one folder adds comes from a section of one of its notes, not excluded,
      with that section's content and the folder's root title. */
  lemma {:induction false} FolderSound(notesIn: string -> seq<NoteRef>, parse: NoteRef -> map<string, string>,
                                       excludedNotes: seq<string>, entry: Entry, t: string)
    requires t in FolderCards(notesIn, parse, excludedNotes, entry)
    ensures exists n :: n in notesIn(entry.0) && !StartsWithAny(n.name, excludedNotes) && t in parse(n)
                     && FolderCards(notesIn, parse, excludedNotes, entry)[t] == Wanted(parse(n)[t], entry.1)
  {
    var refs := notesIn(entry.0);
    var ns := NoteMaps(parse, excludedNotes, refs, entry.1);
    UnionSound(ns, t);
    var j :| 0 <= j < |ns| && t in ns[j] && Union(ns)[t] == ns[j][t];
    assert ns[j] == NoteCards(parse, excludedNotes, refs[j], entry.1);
    assert refs[j] in refs;
  }

  /** Every wanted card comes from a section of a note, not excluded, of one of the
      folders, and holds that section's content and the folder's root title. */
  lemma {:induction false} FoldersSound(notesIn: string -> seq<NoteRef>, parse: NoteRef -> map<string, string>,
                                        excludedNotes: seq<string>, folders: map<string, Entry>, order: seq<string>, t: string)
    requires forall f :: f in order ==> f in folders
    requires t in Union(FolderMaps(notesIn, parse, excludedNotes, folders, order))
    ensures exists k, n :: 0 <= k < |order| && n in notesIn(folders[order[k]].0)
                        && !StartsWithAny(n.name, excludedNotes) && t in parse(n)
                        && Union(FolderMaps(notesIn, parse, excludedNotes, folders, order))[t]
                           == Wanted(parse(n)[t], folders[order[k]].1)
  {
    var fs := FolderMaps(notesIn, parse, excludedNotes, folders, order);
    UnionSound(fs, t);
    var k :| 0 <= k < |fs| && t in fs[k] && Union(fs)[t] == fs[k][t];
    var entry := folders[order[k]];
    FolderSound(notesIn, parse, excludedNotes, entry, t);
  }

  lemma {:induction false} FoldersComplete(notesIn: string -> seq<NoteRef>, parse: NoteRef -> map<string, string>,
                                           excludedNotes: seq<string>, folders: map<string, Entry>, order: seq<string>,
                                           k: nat, n: NoteRef, t: string)
    requires forall f :: f in order ==> f in folders
    requires k < |order| && n in notesIn(folders[order[k]].0)
    requires !StartsWithAny(n.name, excludedNotes) && t in parse(n)
    ensures t in Union(FolderMaps(notesIn, parse, excludedNotes, folders, order))
  {
    var entry := folders[order[k]];
    var refs := notesIn(entry.0);
    var ns := NoteMaps(parse, excludedNotes, refs, entry.1);
    var j :| 0 <= j < |refs| && refs[j] == n;
    assert t in ns[j];
    UnionComplete(ns, j, t);
    UnionComplete(FolderMaps(notesIn, parse, excludedNotes, folders, order), k, t);
  }

  /** Every wanted card comes from a section of a note, not excluded, of one of the
      folders, and holds that section's content and the folder's root title. */
  lemma DesiredSound(svc: Services, excludedHeaders: seq<string>, excludedNotes: seq<string>,
                     folders: map<string, Entry>, order: seq<string>, t: string)
    requires forall f :: f in order ==> f in folders
    requires t in Desired(svc, excludedHeaders, excludedNotes, folders, order)
    ensures exists k, n :: 0 <= k < |order| && n in svc.notesIn(folders[order[k]].0)
                        && !StartsWithAny(n.name, excludedNotes)
                        && t in NoteSections(svc, excludedHeaders, n)
                        && Desired(svc, excludedHeaders, excludedNotes, folders, order)[t]
                           == Wanted(NoteSections(svc, excludedHeaders, n)[t], folders[order[k]].1)
  {
    var parse := Parser(svc, excludedHeaders);
    FoldersSound(svc.notesIn, parse, excludedNotes, folders, order, t);
    var k, n :| 0 <= k < |order| && n in svc.notesIn(folders[order[k]].0)
             && !StartsWithAny(n.name, excludedNotes) && t in parse(n)
             && Union(FolderMaps(svc.notesIn, parse, excludedNotes, folders, order))[t]
                == Wanted(parse(n)[t], folders[order[k]].1);
    assert parse(n) == NoteSections(svc, excludedHeaders, n);
  }

  /** Every section of every note, not excluded, of one of the folders is wanted. */
  lemma DesiredComplete(svc: Services, excludedHeaders: seq<string>, excludedNotes: seq<string>,
                        folders: map<string, Entry>, order: seq<string>, k: nat, n: NoteRef, t: string)
    requires forall f :: f in order ==> f in folders
    requires k < |order| && n in svc.notesIn(folders[order[k]].0)
    requires !StartsWithAny(n.name, excludedNotes) && t in NoteSections(svc, excludedHeaders, n)
    ensures t in Desired(svc, excludedHeaders, excludedNotes, folders, order)
  {
    var parse := Parser(svc, excludedHeaders);
    assert parse(n) == NoteSections(svc, excludedHeaders, n);
    FoldersComplete(svc.notesIn, parse, excludedNotes, folders, order, k, n, t);
  }

  /** The cards gathered are those of the decks named after the folders, each with the
      value of one of those decks. */
  lemma CurrentSound(svc: Services, order: seq<string>, t: string)
    requires t in Current(svc, order)
    ensures exists k :: 0 <= k < |order| && t in svc.deck(order[k]) && Current(svc, order)[t] == svc.deck(order[k])[t]
  {
    UnionSound(DeckMaps(svc.deck, order), t);
  }

  lemma CurrentComplete(svc: Services, order: seq<string>, k: nat, t: string)
    requires k < |order| && t in svc.deck(order[k])
    ensures t in Current(svc, order)
  {
    UnionComplete(DeckMaps(svc.deck, order), k, t);
  }
}

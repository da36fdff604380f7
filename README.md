# joplin-anki-sync, modelled in Dafny

`joplin-anki-sync.py` turns Joplin notes into Anki flashcards. Each top-level
header (`# ...`) of a note becomes one card. The card's front is built from the
note name, the header and its `##` sub-header labels. Its back is the section text,
with inline math `$...$` rewritten to the `[$]...[/$]` markers Anki uses. The
script then makes the Anki decks match. Cards whose front is no longer wanted are
deleted, new fronts are added, and fronts whose back changed are updated.

This project models the four pieces of logic at the core of the script. It proves
what each one computes.

- **Sectionizer** (`Sectionizer`, `MathDelimiters`, `Strings`; lines 128-178).
  - The note body is a sequence of lines.
  - The fence scan (`FencedHeaders`) and the body scan (`SectionBody`) are loops
    proved against specification functions:
    - `FencedLines` for the fence scan;
    - `SectionContent` and `SectionLabels` for the body scan (`Scan` models the
      loop state line by line).
  - The per-note loop (`ParseNote`) is proved equal to a fold of title/content
    writes over the header order.
  - The `$` rewrite (`RewriteLine`) is a character loop proved equal to
    `RewriteMath`. It is shown to be invertible.
- **Folder resolver** (`FolderTree`; lines 91-107).
  - `BuildGraph` builds the parent-to-children map.
  - `Walk` is the explicit-stack depth-first walk. It is proved to record exactly
    the preorder `Visit` of the subtree, each folder tagged with its root title.
  - `ResolveFolders` runs the walk from every selected folder. Later writes under
    the same title win.
  - Acyclicity is a ghost rank on folder ids that decreases from parent to child.
- **Aggregation** (`Aggregation`; lines 276-290).
  - `Collect` merges the decks' cards and every non-excluded note's sections with
    `|=` (right-biased map union).
  - The HTTP reads are given as functions in a `Services` value:
    - the notes of a folder;
    - the body of a note;
    - the iteration order of a note's header set;
    - the cards of a deck.
- **Reconciler** (`Reconciler`; lines 292-337).
  - The three title sets are computed.
  - The `deleteNotes`, `addNotes` and `updateNote` requests are modelled by the
    values they send.
  - A model of what Anki does with them (`Sync`) is proved to bring the cards to
    exactly the wanted fronts and backs (`SyncReachesDesired`).
  - A second run then has nothing to do (`SyncIdempotent`).

Python facts the model makes explicit:
- Set and dict iteration orders are parameters. Where the code iterates a set or
  a dict's keys, the member modelling that loop requires the parameter to list
  exactly those elements (`Enumerates`): `ParseNote`, `Collect`, `IssueUpdates`,
  `Reconcile`, `Sync`, and the lemmas about `Sync`. A folder's notes
  (`notes.items()`) come as one sequence from `Services`.
- A `defaultdict(list)` lookup of a missing key reads as `[]`.
- `d |= e` is `d + e`.
- `stack.pop()` takes the last element.

Behaviour of the code that the model keeps as written:
- The opening math marker is `[$]` and the closing one `[/$]`.
- `##` sub-header lines stay in the section content as well as giving labels.
- A title with labels has two spaces before the `/`.
- Headers `# a` and `# # a` give one title, because every `# ` of the header is
  removed (`Sectionizer.TitlesCanCollide`); the later one overwrites the earlier.
  `Sectionizer.FoldCount` gives one card per header when titles are distinct.
- The content restarts at a line whose rewritten text equals the header. That line
  must be a fenced header line that carries math
  (`Sectionizer.RestartOnlyAtFencedMath`).

## Model

| member | source | states |
|---|---|---|
| Strings.CountCharAppend | joplin-anki-sync.py:154 | `line.count("$")` of a concatenation is the sum of the counts of its parts |
| Strings.RStrip | joplin-anki-sync.py:142 | `rstrip()` yields a prefix of the header that does not end in whitespace, and everything it removed is whitespace |
| Strings.RemoveHashSpaceNone | joplin-anki-sync.py:173-175 | `replace('# ', '')` leaves a text unchanged when no `#` in it is followed by a space |
| Strings.RemoveHashSpaceHeader | joplin-anki-sync.py:173-175 | for a header `# x` whose `x` holds no `# `, the title part is `x` |
| Strings.LeadingHashes | joplin-anki-sync.py:168-169 | counts exactly the `#` characters that start the line: all before it are `#` and the next is not |
| Strings.StripSubheaderMarker | joplin-anki-sync.py:169 | `re.sub(r"^##+ ", "", line)` changes the line exactly when it starts with two or more `#` followed by a space, and then removes exactly those `#` and that one space |
| MathDelimiters.RewriteMath | joplin-anki-sync.py:154 | a line whose `$` count is zero or odd is kept unchanged |
| MathDelimiters.RewriteLine | joplin-anki-sync.py:154-166 | the `str_builder`/`in_formula` loop yields the rewrite `RewriteMath` of the line |
| MathDelimiters.RewriteAtDollar | joplin-anki-sync.py:157-165 | in a rewritten line, the `$` with an even number of `$` before it (1st, 3rd, ...) becomes `[$]` and the one with an odd number before it (2nd, 4th, ...) becomes `[/$]`, with the text before and after rewritten in place |
| MathDelimiters.RewriteAtOther | joplin-anki-sync.py:157-159 | in a rewritten line, every character other than `$` is copied in its place, in order |
| MathDelimiters.DelimitSplit | joplin-anki-sync.py:157-165 | rewriting a concatenation rewrites the second part with the flag the first part leaves, flipped once per `$` |
| MathDelimiters.DelimitRoundTrip | joplin-anki-sync.py:157-165 | replacing each marker by `$` again gives back the original text: the rewrite loses nothing |
| MathDelimiters.RewriteRoundTrip | joplin-anki-sync.py:154-166 | a line with a positive even `$` count is changed by the rewrite and is recovered from it by removing the markers |
| MathDelimiters.DelimitLength | joplin-anki-sync.py:157-165 | the rewrite keeps the number of `$`; each opening marker adds two characters and each closing marker three |
| MathDelimiters.RewriteLength | joplin-anki-sync.py:154-166 | a line with `2k` dollars keeps them all and grows by `5k` characters |
| MathDelimiters.RewritePrefix | joplin-anki-sync.py:150-168 | the header and sub-header prefix tests give the same answer on a line and on its rewritten form |
| MathDelimiters.RewriteExample | joplin-anki-sync.py:154-166 | `a$x$b` becomes `a[$]x[/$]b` |
| Sectionizer.TopHeaderPrefix | joplin-anki-sync.py:150 | the regular expression `^# .*` on one line is the prefix test for `# ` |
| Sectionizer.FencedHeaders | joplin-anki-sync.py:132-138 | the `check`-flag loop builds `comment_headers` = `FencedLines(lines)` |
| Sectionizer.FencedLinesMembers | joplin-anki-sync.py:132-138 | a text is in `comment_headers` exactly when some line holding it is a `# ` line read while the fence flag is on |
| Sectionizer.FencedLinesSound | joplin-anki-sync.py:132-138 | every text in `comment_headers` comes from a fenced header line |
| Sectionizer.FencedLinesComplete | joplin-anki-sync.py:132-138 | every fenced header line contributes its text to `comment_headers` |
| Sectionizer.FirstIndex | joplin-anki-sync.py:149-171 | the content starts at an occurrence of the header |
| Sectionizer.FirstIndexIsFirst | joplin-anki-sync.py:149-171 | no earlier line equals the header: the content starts at the header's first occurrence |
| Sectionizer.SectionEnd | joplin-anki-sync.py:150-152 | the section ends at the document's end or at a `# ` line that is not in `comment_headers` |
| Sectionizer.SectionEndIsFirst | joplin-anki-sync.py:150-152 | no line before the section's end closes it |
| Sectionizer.RewrittenAt | joplin-anki-sync.py:154-167 | every line appended to a content is the rewrite of the line read |
| Sectionizer.LastResetIsLast | joplin-anki-sync.py:170-171 | no line after the last restart of the content equals the header |
| Sectionizer.ScanBefore | joplin-anki-sync.py:153-171 | before the header's first occurrence nothing is collected and the scan has not stopped |
| Sectionizer.ScanStopsAt | joplin-anki-sync.py:150-152 | unfolding step: a `# ` line outside `comment_headers` met inside a section ends the scan without changing content or labels |
| Sectionizer.ScanStaysStopped | joplin-anki-sync.py:152 | after the `break` no line changes content or labels |
| Sectionizer.ScanInside | joplin-anki-sync.py:153-171 | inside a section, the content is the rewritten lines since the last restart joined without separators, and the labels are those of every sub-header line since the header |
| Sectionizer.ScanComputesContent | joplin-anki-sync.py:146-171 | the line-by-line scan ends with the content `SectionContent` |
| Sectionizer.ScanComputesLabels | joplin-anki-sync.py:146-171 | the line-by-line scan ends with the labels `SectionLabels` |
| Sectionizer.SectionBody | joplin-anki-sync.py:146-171 | the body loop for one header returns the section's content and its sub-header labels |
| Sectionizer.ParseNote | joplin-anki-sync.py:128-178 | the per-header loop returns the fold of the title/content writes of the non-excluded real headers in the iteration order |
| Sectionizer.FoldKeySet | joplin-anki-sync.py:141-177 | the keys of `headers_hash` are exactly the titles of the headers that pass the filters |
| Sectionizer.FoldSound | joplin-anki-sync.py:141-177 | every value of `headers_hash` is the content of a header that passes the filters and has that title |
| Sectionizer.FoldValue | joplin-anki-sync.py:177 | the value under a title is the content of a header of the order with that title |
| Sectionizer.FoldExact | joplin-anki-sync.py:141-177 | when titles do not collide, each header that passes the filters has its own card holding its own content |
| Sectionizer.FoldOrderFree | joplin-anki-sync.py:139-177 | when titles do not collide, the header order does not change the result |
| Sectionizer.FoldCount | joplin-anki-sync.py:139-177 | when titles do not collide, there is exactly one card per header that passes the filters |
| Sectionizer.NoteCardTitles | joplin-anki-sync.py:128-178 | the note's card titles are exactly the titles of its eligible headers, and every eligible header is a line of the note |
| Sectionizer.NoteCardContents | joplin-anki-sync.py:128-178 | every card of the note holds the section content of an eligible header with that title |
| Sectionizer.NoteOrderFree | joplin-anki-sync.py:139 | when the note's titles do not collide, its cards do not depend on the order of `list(set(...))` |
| Sectionizer.EligibleHeadersExactly | joplin-anki-sync.py:128-145 | a header yields a card exactly when it is a `# ` line of the note, no occurrence of it is read inside a fence (even if it also occurs outside one), its right-stripped text starts with no excluded prefix, and it does not contain `==` |
| Sectionizer.EmptyWhenHeaderFollows | joplin-anki-sync.py:150-171 | a header followed at once by the next section gets content `""` and no labels |
| Sectionizer.LabelsSound | joplin-anki-sync.py:168-169 | every label comes from a `##` line of the section, with its `##+ ` marker removed |
| Sectionizer.LabelsComplete | joplin-anki-sync.py:168-169 | every `##` line of the section contributes its label |
| Sectionizer.LabelsAreSubheaders | joplin-anki-sync.py:168-169 | the labels are exactly those of the section's `##` lines |
| Sectionizer.RestartOnlyAtFencedMath | joplin-anki-sync.py:150-171 | inside a real header's section, the content restarts only at a fenced header line, different from the header, that carries a positive even number of `$` and whose rewrite equals the header |
| Sectionizer.ContentWithoutDollar | joplin-anki-sync.py:149-171 | for a real header without `$`, the content is all rewritten lines after its first occurrence up to the next real header, joined without separators, including `##` lines and fenced `# ` lines |
| Sectionizer.SectionAt | joplin-anki-sync.py:146-171 | unfolding step: a section's content and labels, given the positions of its header, its end and its last restart |
| Sectionizer.TitlesCanCollide | joplin-anki-sync.py:172-177 | the headers `# a` and `# # a` of one note give the same title `Note / a` |
| Sectionizer.TopicNoteFirstSection | joplin-anki-sync.py:146-177 | in the note `# T`, `i`, `## A`, `b`, `## B`, `m`, `# N`, the first card's content is `i## Ab## Bm` and its title is `Note  / T ['A', 'B']` |
| Sectionizer.TopicNoteLastSection | joplin-anki-sync.py:146-177 | in the same note, the last header gets content `""` and the title `Note / N` |
| FolderTree.Children | joplin-anki-sync.py:92-95 | every child listed under an id is a folder of the listing whose parent is that id |
| FolderTree.ChildrenComplete | joplin-anki-sync.py:92-95 | every folder whose parent is an id is listed among its children |
| FolderTree.BuildGraph | joplin-anki-sync.py:92-95 | the loop builds the `defaultdict` whose lookup of every id gives that id's children in listing order, with no empty list stored |
| FolderTree.Walk | joplin-anki-sync.py:99-107 | the stack loop from a selected folder records, in order, the preorder walk of its subtree (last child first), each folder under its title with its id and the root's title |
| FolderTree.TraceAppend | joplin-anki-sync.py:100-107 | the folders pushed last are all walked before the rest of the stack |
| FolderTree.VisitFirst | joplin-anki-sync.py:101-107 | unfolding step: a walk records its start folder first, then the walks from its children |
| FolderTree.VisitIsSubtree | joplin-anki-sync.py:99-107 | for acyclic folders, a walk from a folder records exactly the folders reachable from it through parent links, itself included |
| FolderTree.ResolveFolders | joplin-anki-sync.py:97-107 | the outer loop leaves in `folders` the writes of the walks from the selected folders in listing order, the later write under a title winning |
| FolderTree.ResolveStep | joplin-anki-sync.py:97-107 | a selected folder adds the writes of its walk; any other folder adds none |
| FolderTree.ApplyLast | joplin-anki-sync.py:102-105 | the entry under a title is the one of the last write to it |
| FolderTree.ApplySound | joplin-anki-sync.py:102-105 | every entry was there before or holds what some write recorded under its title |
| FolderTree.ApplyKeysComplete | joplin-anki-sync.py:102-105 | every title written gets an entry |
| FolderTree.ResolvedComplete | joplin-anki-sync.py:97-107 | for acyclic folders, every folder reachable from a selected folder, that folder included, gets an entry |
| FolderTree.ResolvedSound | joplin-anki-sync.py:97-107 | every entry is under the title of a folder reachable from a selected folder, and holds that folder's id and the selected folder's title |
| FolderTree.WritesSound | joplin-anki-sync.py:97-98 | every write of the outer loop comes from one folder of the listing |
| FolderTree.WritesComplete | joplin-anki-sync.py:97-98 | every write for a folder of the listing is among the writes of the outer loop |
| FolderTree.ExampleWalk | joplin-anki-sync.py:99-107 | a selected folder with two sub-folders is walked as the folder, its last sub-folder, then its first one |
| Aggregation.UnionSound | joplin-anki-sync.py:278-290 | a key of the dicts merged with `\|=` comes from one of them, with that dict's value |
| Aggregation.UnionComplete | joplin-anki-sync.py:278-290 | a key of any of the merged dicts is a key of the merge |
| Aggregation.UnionLast | joplin-anki-sync.py:278-290 | the value under a key is that of the last dict holding it |
| Aggregation.ParseRef | joplin-anki-sync.py:283 | a note is sectionized to the sections of its body |
| Aggregation.AddNote | joplin-anki-sync.py:281-290 | a note whose title starts with an excluded prefix adds nothing; any other note merges its sections last |
| Aggregation.CollectFolder | joplin-anki-sync.py:279-290 | the note loop of a folder merges the cards of its notes in turn |
| Aggregation.Collect | joplin-anki-sync.py:276-290 | the folder loop builds `anki_cards` = `Current` and `joplin_notes` = `Desired` |
| Aggregation.FolderSound | joplin-anki-sync.py:279-290 | every card one folder adds comes from a section of one of its non-excluded notes, with that section's content and the folder's root title |
| Aggregation.DesiredSound | joplin-anki-sync.py:276-290 | every wanted card comes from a section of a non-excluded note of one of the folders, with that section's content and that folder's root title as deck |
| Aggregation.DesiredComplete | joplin-anki-sync.py:276-290 | every section of every non-excluded note of the folders is a wanted title |
| Aggregation.CurrentSound | joplin-anki-sync.py:276-278 | every gathered card comes from the deck of one of the folders, with that deck's value |
| Aggregation.CurrentComplete | joplin-anki-sync.py:276-278 | every card of every folder's deck is gathered |
| Reconciler.Partition | joplin-anki-sync.py:292-324 | `to_delete`, `to_add` and the common titles do not overlap; `to_delete` plus the common titles is Anki's titles, and `to_add` plus the common titles is the wanted titles |
| Reconciler.DeleteIds | joplin-anki-sync.py:298 | the delete request lists, in order, the note id of each title to delete |
| Reconciler.AddRequests | joplin-anki-sync.py:308-316 | every new note is for a title in `to_add` and carries its deck, its title as front and its content as back; every wanted title in `to_add` gets a new note |
| Reconciler.Changed | joplin-anki-sync.py:324-325 | only common titles are updated |
| Reconciler.ChangedSound | joplin-anki-sync.py:324-325 | every updated title is a common title whose stored back differs from the wanted content |
| Reconciler.ChangedComplete | joplin-anki-sync.py:324-325 | every common title whose stored back differs is updated |
| Reconciler.UpdateRequests | joplin-anki-sync.py:326-334 | each update request carries the stored note id, the title as front and the wanted content as back |
| Reconciler.IssueUpdates | joplin-anki-sync.py:324-337 | the update loop appends to `updated` exactly the changed common titles in order, and sends one request for each |
| Reconciler.Reconcile | joplin-anki-sync.py:292-337 | the three requests sent: the ids of `to_delete`, the new notes for `to_add`, and the updates of the changed titles |
| Reconciler.UpdateNote | joplin-anki-sync.py:326-336 | `updateNote` changes no title |
| Reconciler.DeletesExactly | joplin-anki-sync.py:292-300 | with distinct note ids, deleting `to_delete` leaves exactly the common titles, unchanged |
| Reconciler.AddNotesKeys | joplin-anki-sync.py:303-321 | after `addNotes` the titles are those before plus the fronts of the new notes |
| Reconciler.AddNotesKept | joplin-anki-sync.py:303-321 | a card no new note is for keeps its value |
| Reconciler.AddNotesBack | joplin-anki-sync.py:303-321 | a title the new notes are for gets their back |
| Reconciler.UpdateNotesKept | joplin-anki-sync.py:324-337 | a card no update is for keeps its value |
| Reconciler.UpdateNotesSet | joplin-anki-sync.py:324-337 | a card whose updates carry its own note id gets their back and keeps its id |
| Reconciler.AfterAdd | joplin-anki-sync.py:292-321 | after the deletes and adds the titles are the wanted ones; common titles hold their old cards and new titles their wanted content |
| Reconciler.AfterUpdate | joplin-anki-sync.py:324-337 | after the updates every wanted title holds its content, a stored card keeps its id, and a card whose back agreed is untouched |
| Reconciler.SyncReachesDesired | joplin-anki-sync.py:292-337 | after the three requests the cards' titles are exactly the wanted titles, every back is the wanted content, every kept card keeps its note id, and a card whose back already agreed is untouched |
| Reconciler.SyncAt | joplin-anki-sync.py:292-337 | the same, for one title |
| Reconciler.NothingLeft | joplin-anki-sync.py:292-325 | against cards that already match, nothing is deleted, added or updated |
| Reconciler.SyncIdempotent | joplin-anki-sync.py:292-337 | a second run against the synced cards deletes, adds and updates nothing |
| Reconciler.ReconcileExample | joplin-anki-sync.py:292-325 | Anki holding A and B, Joplin wanting an unchanged B and a new C: the note of A is deleted, C is added in its deck, and B is not updated |

## Definitions

The functions below are definitions, not proved claims. Each one is the reference
the lemmas and methods of the model table are stated against.

| member | source | defines |
|---|---|---|
| Strings.CountChar | joplin-anki-sync.py:154 | `line.count(c)` for one character; its properties are in `CountCharAppend` and `CountCharAbsent` |
| Strings.RemoveHashSpace | joplin-anki-sync.py:173-175 | `header.replace('# ', '')`, removing the occurrences from left to right without overlap; see `RemoveHashSpaceNone`, `RemoveHashSpaceHeader` and `TitlesCanCollide` |
| Sectionizer.Excluded | joplin-anki-sync.py:142-145 | the two header filters: the right-stripped header starts with an excluded prefix, or the header contains `==`; see `EligibleHeadersExactly` |
| Sectionizer.CardTitle | joplin-anki-sync.py:172-176 | the card title: `note  / header [labels]` with labels, `note / header` without, every `# ` of the header removed; see `TopicNoteFirstSection` and `TitlesCanCollide` |
| Aggregation.Union | joplin-anki-sync.py:278-290 | dicts merged from left to right with `\|=`; see `UnionSound`, `UnionComplete` and `UnionLast` |
| Aggregation.InDeck | joplin-anki-sync.py:284-290 | the comprehension that turns a note's sections into wanted cards of the deck `root` |
| Aggregation.NoteCards | joplin-anki-sync.py:281-290 | what one note adds: nothing when its title starts with an excluded prefix, else its sections in the folder's deck; see `AddNote` and `DesiredSound` |
| Reconciler.ToDelete | joplin-anki-sync.py:292 | the titles only Anki has; see `Partition` |
| Reconciler.ToAdd | joplin-anki-sync.py:303 | the titles only Joplin has; see `Partition` |
| Reconciler.Common | joplin-anki-sync.py:324 | the titles both have; see `Partition` |
| Reconciler.DeleteNotes | joplin-anki-sync.py:293-300 | what `deleteNotes` does to the cards, as modelled: the cards with a listed note id go; see `DeletesExactly` |
| Reconciler.AddNotes | joplin-anki-sync.py:304-321 | what `addNotes` does to the cards, as modelled: a card per new note with the id Anki hands out; see `AddNotesKeys`, `AddNotesKept` and `AddNotesBack` |
| Reconciler.UpdateNotes | joplin-anki-sync.py:324-337 | the `updateNote` requests applied in turn, each to the card of its front when the note id matches; see `UpdateNotesKept` and `UpdateNotesSet` |
| Reconciler.Sync | joplin-anki-sync.py:292-337 | the cards after the delete, add and update requests; see `SyncReachesDesired` and `SyncIdempotent` |

## Left out

- Configuration and token discovery, JSON parsing and `exit()` (lines 21-88, 108-118) are file I/O. The selected titles, excluded header prefixes and excluded note prefixes are parameters.
- All HTTP calls are left out:
  - the note body fetch (lines 121-127);
  - `joplin_folder_parser` (181-189);
  - `anki_deck_parser` (192-215);
  - the version check (110-118).
  Their results are the functions of `Aggregation.Services`. A folder's notes come as the items of the dict `joplin_folder_parser` builds, so notes of one folder with the same title are already reduced to the last one.
- The delete, add and update POSTs (lines 293-300, 304-321, 336) are modelled by the values they send. Their responses are not read by the script and are not modelled.
- `anki_add_card` and `anki_del_card` (lines 218-269) are never called by the script and are not modelled.
- The `print` summaries (lines 301, 322, 338) are output only.
- The iteration orders are inputs, not computed:
  - `list(set(...))` of headers (line 139);
  - `folders.keys()` (line 276);
  - `notes.items()` (line 280);
  - `joplin_notes.items()` (line 314);
  - the iteration of the `to_delete` set and of the common set (lines 298, 324).
- FolderTree.ResolveFolders: requires the whole listing to be acyclic (a ghost rank). The script only fails to terminate on a cycle reachable from a selected folder.
- FolderTree.BuildGraph: the `defaultdict` lookup at line 106 also inserts an empty list for a folder without children. That is unobservable and not modelled.
- Sectionizer.ParseNote: the body is split into lines beforehand. The regular expressions are the prefix tests they amount to on one line.
- Strings.ListRepr: `str(list)` is modelled with every item in single quotes. Python switches to double quotes or escapes for items holding quotes or backslashes.
- Reconciler.Sync: Anki is modelled only as the `anki_cards` dict, the cards of the selected decks by front. Other decks, note types and Anki's duplicate check are not modelled. The ids Anki gives new notes are a parameter.
- Reconciler.SyncReachesDesired: requires distinct note ids among the stored cards, since `deleteNotes` deletes by id.
- Aggregation.Collect: two decks holding cards with the same front merge with `|=`, and the earlier one's card is then neither deleted nor updated. The model keeps this merge as written but says nothing about the hidden card.

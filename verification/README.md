# AI Career Roadmap Generator and Learning Progress Tracker, modelled in Dafny

The program is two page scripts. The career form (`app.py`) reads the user's
comma-separated skills and interests. It ranks a fixed catalog of careers by
similarity to them and shows the top three. It then flattens the chosen
career's roadmap into one task list, starting from the chosen level. The
progress tracker (`learning_progress_tracker.py`) keeps a status for every
task of that list. It seeds the statuses from a progress file, keeps them in
step with the current tasks, summarises them on a dashboard, and merges them
back into the file on save.

This project models the deterministic core of both scripts as pure Dafny
functions over sequences and maps, plus two methods:

- `text.dfy` (`Text`): the string built-ins the form relies on. These are
  `strip`, `lower`, `split(sep)` and `sep.join`, on ASCII.
- `query.dfy` (`Query`): turning the comma-separated input into tokens, and
  joining the tokens into the query text.
- `catalog.dfy` (`Catalog`): a career record, its text for the embedding
  model, and lookup of the selected career by name.
- `ranking.dfy` (`Ranking`): `np.argsort(similarities)[::-1][:3]` over an
  abstract score vector, and the recommendations it selects.
- `roadmaps.dfy` (`Roadmaps`): roadmap flattening, regrouping by level, and
  the task list handed to the tracker.
- `progress.dfy` (`Progress`): loading, the initial progress, session
  reconciliation, status changes, dashboard statistics, and save.
- `wrappers.dfy` (`Wrappers`): `Option` and `dict.get`.

The similarity scores are an input (`seq<int>`, one per catalog record),
because the embedding model and cosine similarity are outside the model. The
progress file is an input too (`ProgressFile`): missing, unreadable, or a
decoded JSON object.

Three behaviours of the code are easy to misread, and the model follows the
code in each:

- Ties in the ranking are not kept in catalog order. The code promises no
  tie order: `np.argsort` uses a sort that is not stable, and the result is
  reversed. `Ranking.TopOfArgsort` holds for every tie order. The concrete
  `Ranking.Argsort` is stable, so after reversal, of two equally scored
  records the later one comes first (`Ranking.TiesLaterFirst`).
- On the first visit the code copies the saved entry unfiltered, so it may
  hold tasks outside the current list. Only later visits drop such tasks
  (`Progress.InitSession`).
- A status change for a task the map does not hold raises no error. The code
  writes the value under any key, adding it if absent (`Progress.SetStatus`).

## Model

| member | source | states |
|---|---|---|
| `Text.Strip` | app.py:26-27 | The result is a slice of the piece with only whitespace cut off on either side. It has no leading or trailing whitespace left, and it is empty exactly when the piece is blank |
| `Text.Lower` | app.py:26-27 | Lower-casing maps each upper-case letter to its lower-case letter and keeps every other character. So the length is kept, no upper-case letter is left, whitespace and commas stay where they were, and lower-case text is unchanged |
| `Text.Split` | app.py:26-27 | `split(",")` gives at least one piece, no piece holds the separator, and joining the pieces with the separator rebuilds the input |
| `Text.SplitJoin` | app.py:26-27 | Splitting a separator-joined list of separator-free pieces gives back exactly those pieces |
| `Text.JoinAppend` | app.py:29 | Joining two non-empty lists puts exactly one separator between the joined halves |
| `Query.Tokens` | app.py:26-27 | Every kept token is non-empty, stripped and lower case. Comma-free pieces give comma-free tokens. Nothing is kept exactly when every piece is blank |
| `Query.TokensSingle` | app.py:26-27 | One piece yields nothing when it is blank and otherwise exactly its stripped, lower-cased text. With `TokensAppend` this fixes the tokens of every list of pieces |
| `Query.TokensAppend` | app.py:26-27 | Tokenising preserves order: the tokens of `a + b` are the tokens of `a` followed by the tokens of `b` |
| `Query.ParseList` | app.py:26-27 | Every parsed token is non-empty, stripped, lower case and comma-free. The list is empty exactly when the input holds only commas and whitespace |
| `Query.ParseListOnePiece` | app.py:26-27 | Input without a comma parses to its own stripped, lower-cased text, or to nothing when it is blank |
| `Query.ParseListFirstPiece` | app.py:26-27 | The text before the first comma contributes its stripped, lower-cased token, unless it is blank, ahead of the tokens of the rest. With `ParseListOnePiece` this fixes the parse of every input, piece by piece and in order |
| `Query.ParseJoin` | app.py:26-27 | Parsing a comma-joined list of comma-free pieces yields those pieces' tokens in their original order |
| `Query.QueryText` | app.py:31 | The query text is the joined skills, one space, then the joined interests. It is just one side when the other is empty, and empty for an empty query |
| `Query.QueryTextSplits` | app.py:31 | When no token holds a space, the query text splits back into exactly the skills followed by the interests |
| `Catalog.CareerText` | app.py:29 | A career's text is its joined required skills, one space, then its joined interest tags, or just one side when the other is empty |
| `Catalog.Names` | app.py:49 | The selectbox options are the recommendations' names, one per record and in order, so every recommended career's name is offered |
| `Catalog.IndexOfName` | app.py:50 | The index found carries the name and no earlier record does. There is none exactly when no record carries the name |
| `Catalog.FindByName` | app.py:50 | The record found is one of the recommendations and carries the name. Nothing is found (the `StopIteration` case) exactly when the name is not among the recommendations' names |
| `Catalog.FindListedName` | app.py:49-50 | A name chosen from the recommendations' own names always finds a record with that name |
| `Catalog.FindByNameFirst` | app.py:50 | The record found is the first one in order that carries the name |
| `Ranking.Insert` | app.py:34 | Insertion keeps indices valid and adds exactly one occurrence of the new index |
| `Ranking.InsertAscending` | app.py:34 | Inserting into a score-ascending index list keeps it score-ascending |
| `Ranking.InsertDistinct` | app.py:34 | Inserting a new index into a duplicate-free list keeps it duplicate-free |
| `Ranking.ArgsortPrefix` | app.py:34 | Sorting the first `n` indices lists each of `0..n-1` exactly once, in ascending score order |
| `Ranking.Argsort` | app.py:34 | The argsort is a permutation of all catalog indices in ascending score order |
| `Ranking.Reverse` | app.py:34 | `p[::-1]` holds `p`'s entries from last to first, and exactly the same values as `p` |
| `Ranking.TopOf` | app.py:34 | `p[::-1][:3]` has `min(3, n)` entries, read from the end of `p` backwards, and it holds every one of the last `min(3, n)` entries of `p` |
| `Ranking.TopOfArgsort` | app.py:34 | For any argsort, whatever its tie order, the reversed first three are a correct top-3 pick: `min(3, n)` distinct valid indices in non-increasing score order, none scoring below an unselected index |
| `Ranking.TopIndices` | app.py:34 | The selected indices are a correct top-3 pick in the same sense |
| `Ranking.Recommend` | app.py:35 | The recommendations are `min(3, n)` catalog records, namely the records at some correct top-3 pick, in that order |
| `Ranking.InsertStable` | app.py:34 | Inserting an index above every listed one keeps equally scored indices in index order |
| `Ranking.ArgsortPrefixStable` | app.py:34 | The concrete argsort keeps equally scored indices in catalog order |
| `Ranking.TiesLaterFirst` | app.py:34 | For any two equally scored records, the concrete argsort reversed lists the later record before the earlier one |
| `Roadmaps.StartLevel` | app.py:59-67 | The start level is Beginner or Intermediate when the selection names it, and Advanced for any other value, "Advanced" included |
| `Roadmaps.Tag` | app.py:60-67 | Every pair made by `[(level, step) for step in ...]` carries the given level, and dropping the levels gives back the task list unchanged |
| `Roadmaps.Flatten` | app.py:58-67 | Every flattened step's level is included for the selection. Levels never decrease along the list. Its length is the sum of the included levels' lengths |
| `Roadmaps.StepsAt` | app.py:71 | Filtering by level never lengthens the list |
| `Roadmaps.StepsAtAppend` | app.py:71 | Filtering by level distributes over concatenation |
| `Roadmaps.StepsAtTag` | app.py:71 | Filtering a block tagged with one level gives its tasks for that level and nothing for any other |
| `Roadmaps.RegroupRecovers` | app.py:70-71 | Filtering the flattened list by a level gives back that level's original task list when the level is included, and an empty list otherwise |
| `Roadmaps.SelectedTasks` | app.py:58-91 | The tracker's task list, `Project` of the flattened steps (`[step for _, step in roadmap_steps]`), is Beginner ++ Intermediate ++ Advanced tasks for "Beginner", Intermediate ++ Advanced for "Intermediate", and Advanced alone otherwise |
| `Roadmaps.SectionsMatchTracker` | app.py:70-91 | The per-level sections of the roadmap page, read top to bottom, list the tracker's tasks in the tracker's order |
| `Progress.LoadSaved` | learning_progress_tracker.py:23-29 | A missing or unreadable file reads as the empty mapping and never as an error. A file holding a JSON object reads as its contents |
| `Progress.InitialProgress` | learning_progress_tracker.py:32 | The initial progress is the saved entry for the career if there is one. Otherwise its keys are exactly the current tasks, each "Not Started" |
| `Progress.Reconcile` | learning_progress_tracker.py:38-45 | After reconciliation the keys are exactly the current tasks. Tasks already present keep their session value. New tasks take the initial-progress value, or "Not Started" if there is none (`Lookup`, the model of `dict.get` with a default) |
| `Progress.InitSession` | learning_progress_tracker.py:35-45 | A first visit yields the initial progress unchanged, with no filtering against the tasks. A later visit yields the reconciled map |
| `Progress.SetStatus` | learning_progress_tracker.py:48-56 | A value sets that task's entry to it and changes no other entry. Any status may replace any other. No value leaves the map unchanged |
| `Progress.SetStatusUndo` | learning_progress_tracker.py:54-56 | Writing a task's old status back after a change restores the map exactly |
| `Progress.Count` | learning_progress_tracker.py:63-64 | A status count never exceeds the number of tasks |
| `Progress.CountsPartition` | learning_progress_tracker.py:61-65 | Completed, in-progress and pending counts add up to the number of tasks. Pending means an absent key or any other value |
| `Progress.ComputeStats` | learning_progress_tracker.py:61-67 | total is the number of tasks. completed and in_progress count the tasks recorded as "Completed" and "In Progress". completed + in_progress + pending == total, with pending non-negative and equal to the direct count of pending tasks. percent is completed / total * 100 when there are tasks and 0 otherwise, and it lies in [0, 100] |
| `Progress.CountFull` | learning_progress_tracker.py:74 | The completed count equals the number of tasks exactly when every task is recorded as "Completed" |
| `Progress.AllCompletedIff` | learning_progress_tracker.py:74 | The all-completed banner shows exactly when there is at least one task and every task is "Completed", and exactly when percent is 100 |
| `Progress.Save` | learning_progress_tracker.py:107-118 | After a save the current career's entry is the session map and every other career's entry is as in the file. A missing or unreadable file counts as empty |
| `Progress.SaveThenLoad` | learning_progress_tracker.py:107-118 | Loading the saved file returns the session map for the career, also as that career's initial progress |
| `Progress.SaveLastWins` | learning_progress_tracker.py:107-118 | Two saves for one career leave the later map only: last writer wins |

## Left out

- The sentence-embedding model and cosine similarity (app.py:14-15, 30-33) are foreign floating-point library calls. The scores are an input sequence of integers, one per record.
- Reading the catalog file (app.py:11-12) is left out, and so is any schema checking. The catalog is an input sequence of `Career` records with all fields present.
- File I/O and JSON encoding (learning_progress_tracker.py:24-29, 110-118) are left out. The file is a `ProgressFile` value, and a save's result is the mapping written. Write failures are not modelled.
- All Streamlit presentation is left out: page config, widgets, columns, HTML, captions truncated to five skills and three tags, the resource list, `st.rerun`, `st.switch_page`, and the missing-roadmap guard with `st.stop`. The same goes for the widget-key initialisation and `.index(...)` lookup (learning_progress_tracker.py:81-97) and the refresh button.
- Text.Strip: whitespace is Python's `str.isspace` on ASCII only. Non-ASCII whitespace is not stripped.
- Text.Lower: only ASCII letters are lower-cased. Python's full Unicode case mapping is not modelled.
- Ranking.Argsort: fixes one tie order (stable), where numpy's default sort gives an unspecified one. `Ranking.TopOfArgsort` covers every tie order.
- ComputeStats: percent is an exact rational, not a binary float. Its bounds, and the 0 and 100 cases, also hold in floating point.
- A progress file whose top-level JSON value is not an object (`[]`, `null`, `42`) is not modelled. It loads without error at learning_progress_tracker.py:27, and the source then crashes at :32 (`.get` on a non-dict) and again on save at :116.
- Progress values are arbitrary strings, as decoded from the file. A saved entry that is not a mapping of strings (possible in a hand-edited file) is not modelled.

/** The selection and save bookkeeping of the results table
    (components/results-list.tsx): record keys, the selected / saved / saving key
    sets, and which records a batch save or an export of the selection takes. */
module ResultsList {
  import opened Wrappers
  import opened Types
  import opened Text
  import opened Seqs

  /** `${name}-${address}` with all whitespace removed: the key of a table row. */
  function RecordKey(p: MedicalProfessional): (key: string)
    ensures forall i :: 0 <= i < |key| ==> !IsWhitespace(key[i])
  {
    RemoveWhitespace(p.name + "-" + p.address)
  }

  /** Records whose name and address differ only in whitespace share a key. */
  lemma SameKeyUpToWhitespace(p: MedicalProfessional, q: MedicalProfessional)
    requires RemoveWhitespace(p.name) == RemoveWhitespace(q.name)
    requires RemoveWhitespace(p.address) == RemoveWhitespace(q.address)
    ensures RecordKey(p) == RecordKey(q)
  {
    RemoveWhitespaceConcat(p.name + "-", p.address);
    RemoveWhitespaceConcat(p.name, "-");
    RemoveWhitespaceConcat(q.name + "-", q.address);
    RemoveWhitespaceConcat(q.name, "-");
  }

  /** The keys of all rows. */
  function KeySet(results: seq<MedicalProfessional>): set<string> {
    KeysOf(results, RecordKey)
  }

  /** The images of the rows under `key`. */
  function KeysOf(rows: seq<MedicalProfessional>, key: MedicalProfessional -> string): set<string> {
    set i | 0 <= i < |rows| :: key(rows[i])
  }

  lemma KeysOfStep(rows: seq<MedicalProfessional>, key: MedicalProfessional -> string)
    requires rows != []
    ensures KeysOf(rows, key) == KeysOf(rows[..|rows| - 1], key) + {key(rows[|rows| - 1])}
  {
    var init := rows[..|rows| - 1];
    forall k | k in KeysOf(rows, key)
      ensures k in KeysOf(init, key) + {key(rows[|rows| - 1])}
    {
      var i :| 0 <= i < |rows| && key(rows[i]) == k;
      if i < |rows| - 1 {
        assert init[i] == rows[i];
      }
    }
    forall k | k in KeysOf(init, key)
      ensures k in KeysOf(rows, key)
    {
      var i :| 0 <= i < |init| && key(init[i]) == k;
      assert rows[i] == init[i];
    }
  }

  /** There are never more keys than rows. */
  lemma {:induction false} KeysOfCard(rows: seq<MedicalProfessional>, key: MedicalProfessional -> string)
    ensures |KeysOf(rows, key)| <= |rows|
    decreases |rows|
  {
    if rows != [] {
      KeysOfStep(rows, key);
      KeysOfCard(rows[..|rows| - 1], key);
    }
  }

  /** Two rows with the same key leave fewer keys than rows. */
  lemma {:induction false} RepeatedKeyShrinks(rows: seq<MedicalProfessional>, key: MedicalProfessional -> string, i: int, j: int)
    requires 0 <= i < j < |rows| && key(rows[i]) == key(rows[j])
    ensures |KeysOf(rows, key)| < |rows|
    decreases |rows|
  {
    var n := |rows|;
    var init := rows[..n - 1];
    KeysOfStep(rows, key);
    assert init[i] == rows[i];
    if j == n - 1 {
      assert key(rows[n - 1]) in KeysOf(init, key);
      KeysOfCard(init, key);
    } else {
      assert init[j] == rows[j];
      RepeatedKeyShrinks(init, key, i, j);
    }
  }

  predicate HasDuplicateKeys(results: seq<MedicalProfessional>) {
    exists i, j :: 0 <= i < j < |results| && RecordKey(results[i]) == RecordKey(results[j])
  }

  /** `toggled` is `ids` with the membership of `id` flipped. */
  function Toggled(ids: set<string>, id: string): (r: set<string>)
    ensures id in r <==> id !in ids
    ensures forall other :: other != id ==> (other in r <==> other in ids)
  {
    if id in ids then ids - {id} else ids + {id}
  }

  lemma ToggleTwice(ids: set<string>, id: string)
    ensures Toggled(Toggled(ids, id), id) == ids
  {
  }

  /** The rows whose key is selected, in row order. */
  function SelectedRecords(results: seq<MedicalProfessional>, selected: set<string>): seq<MedicalProfessional> {
    Filter(results, IsSelected(selected))
  }

  /** The row's key is selected. */
  function IsSelected(selected: set<string>): MedicalProfessional -> bool {
    p => RecordKey(p) in selected
  }

  /** The rows whose key is selected and not yet saved, in row order. */
  function UnsavedSelection(results: seq<MedicalProfessional>, selected: set<string>, saved: set<string>): seq<MedicalProfessional> {
    Filter(results, IsUnsavedSelected(selected, saved))
  }

  /** The row's key is selected and not yet saved. */
  function IsUnsavedSelected(selected: set<string>, saved: set<string>): MedicalProfessional -> bool {
    p => RecordKey(p) in selected && RecordKey(p) !in saved
  }

  /** The row's key is not yet saved. */
  function IsUnsaved(saved: set<string>): MedicalProfessional -> bool {
    p => RecordKey(p) !in saved
  }

  /** A batch save takes exactly the selected rows not yet saved, in row order: the
      selection with the saved rows taken out, each row as often as it is shown. */
  lemma UnsavedSelectionSpec(results: seq<MedicalProfessional>, selected: set<string>, saved: set<string>)
    ensures var batch := UnsavedSelection(results, selected, saved);
      && IsSubsequence(batch, results)
      && (forall p :: p in batch <==> p in results && RecordKey(p) in selected && RecordKey(p) !in saved)
      && batch == Filter(SelectedRecords(results, selected), IsUnsaved(saved))
  {
    FilterIsSubsequence(results, IsUnsavedSelected(selected, saved));
    var sel := SelectedRecords(results, selected);
    FilterOfFilter(results, IsSelected(selected), IsUnsavedSelected(selected, saved));
    FilterAgree(sel, IsUnsavedSelected(selected, saved), IsUnsaved(saved));
  }

  /** The bookkeeping state of the table; `results` is the list it shows. */
  class Selection {
    const results: seq<MedicalProfessional>
    var selectedIds: set<string>
    var savedIds: set<string>
    var savingIds: set<string>
    var isSavingSelected: bool

    /** Only keys of shown rows are selected. */
    predicate SelectionWithinResults()
      reads this
    {
      selectedIds <= KeySet(results)
    }

    constructor (results: seq<MedicalProfessional>)
      ensures this.results == results
      ensures selectedIds == {} && savedIds == {} && savingIds == {} && !isSavingSelected
    {
      this.results := results;
      selectedIds, savedIds, savingIds := {}, {}, {};
      isSavingSelected := false;
    }

    /** `handleToggleSelect`. */
    method ToggleSelect(id: string)
      modifies this
      ensures selectedIds == Toggled(old(selectedIds), id)
      ensures savedIds == old(savedIds) && savingIds == old(savingIds) && isSavingSelected == old(isSavingSelected)
      ensures old(SelectionWithinResults()) && id in KeySet(results) ==> SelectionWithinResults()
    {
      var newSet := selectedIds;
      if id in newSet {
        newSet := newSet - {id};
      } else {
        newSet := newSet + {id};
      }
      selectedIds := newSet;
    }

    /** `handleSelectAll`: clears the selection when its size equals the row count,
        otherwise selects the key of every row. */
    method SelectAll()
      modifies this
      ensures |old(selectedIds)| == |results| ==> selectedIds == {}
      ensures |old(selectedIds)| != |results| ==> selectedIds == KeySet(results)
      ensures SelectionWithinResults()
      ensures savedIds == old(savedIds) && savingIds == old(savingIds) && isSavingSelected == old(isSavingSelected)
    {
      if |selectedIds| == |results| {
        selectedIds := {};
      } else {
        selectedIds := KeySet(results);
      }
    }

    /** `handleSave` up to the insert: the row's key is marked as being saved. Returns
        false, changing nothing, when there is no database client. */
    method BeginSave(p: MedicalProfessional, hasClient: bool) returns (started: bool)
      modifies this
      ensures started == hasClient
      ensures savingIds == if hasClient then old(savingIds) + {RecordKey(p)} else old(savingIds)
      ensures selectedIds == old(selectedIds) && savedIds == old(savedIds) && isSavingSelected == old(isSavingSelected)
    {
      if !hasClient {
        return false;
      }
      savingIds := savingIds + {RecordKey(p)};
      started := true;
    }

    /** `handleSave` after the insert: the key enters the saved set only when the insert
        succeeded, and leaves the saving set whatever the outcome. */
    method FinishSave(p: MedicalProfessional, insertSucceeded: bool)
      modifies this
      ensures savedIds == if insertSucceeded then old(savedIds) + {RecordKey(p)} else old(savedIds)
      ensures savingIds == old(savingIds) - {RecordKey(p)}
      ensures selectedIds == old(selectedIds) && isSavingSelected == old(isSavingSelected)
    {
      var id := RecordKey(p);
      if insertSucceeded {
        savedIds := savedIds + {id};
      }
      savingIds := savingIds - {id};
    }

    /** `handleSaveSelected` up to the insert: the records to insert, none when there
        is no client, nothing is selected, or every selected row is saved. The batch flag
        is raised for a batch and lowered again when there is none; the early return
        leaves it alone. */
    method BeginSaveSelected(hasClient: bool) returns (batch: seq<MedicalProfessional>)
      modifies this
      ensures !hasClient || old(selectedIds) == {} ==> batch == [] && isSavingSelected == old(isSavingSelected)
      ensures hasClient && old(selectedIds) != {} ==>
        && batch == UnsavedSelection(results, old(selectedIds), old(savedIds))
        && isSavingSelected == (batch != [])
      ensures selectedIds == old(selectedIds) && savedIds == old(savedIds) && savingIds == old(savingIds)
    {
      if !hasClient || |selectedIds| == 0 {
        return [];
      }
      isSavingSelected := true;
      batch := UnsavedSelection(results, selectedIds, savedIds);
      if |batch| == 0 {
        isSavingSelected := false;
      }
    }

    /** `handleSaveSelected` after the insert, as written: on success the saved set
        becomes `snapshot`, the saved set the handler's closure held when it began, plus
        the batch's keys; on failure it is unchanged. The batch flag drops either way. */
    method FinishSaveSelectedAsWritten(batch: seq<MedicalProfessional>, snapshot: set<string>, insertSucceeded: bool)
      modifies this
      ensures savedIds == if insertSucceeded then snapshot + KeySet(batch) else old(savedIds)
      ensures !isSavingSelected
      ensures selectedIds == old(selectedIds) && savingIds == old(savingIds)
    {
      if insertSucceeded {
        var newSavedIds := snapshot;
        var i := 0;
        while i < |batch|
          invariant 0 <= i <= |batch|
          invariant newSavedIds == snapshot + KeySet(batch[..i])
          invariant selectedIds == old(selectedIds) && savedIds == old(savedIds) && savingIds == old(savingIds)
        {
          KeysOfStep(batch[..i + 1], RecordKey);
          assert batch[..i + 1][..i] == batch[..i];
          newSavedIds := newSavedIds + {RecordKey(batch[i])};
          i := i + 1;
        }
        assert batch[..i] == batch;
        savedIds := newSavedIds;
      }
      isSavingSelected := false;
    }

    /** `handleSaveSelected` after the insert, adding the batch's keys to the saved set
        as it is when the insert returns, so that no key saved meanwhile is lost. */
    method FinishSaveSelected(batch: seq<MedicalProfessional>, insertSucceeded: bool)
      modifies this
      ensures savedIds == if insertSucceeded then old(savedIds) + KeySet(batch) else old(savedIds)
      ensures old(savedIds) <= savedIds
      ensures !isSavingSelected
      ensures selectedIds == old(selectedIds) && savingIds == old(savingIds)
    {
      FinishSaveSelectedAsWritten(batch, savedIds, insertSucceeded);
    }

    /** `handleSaveSelected` when nothing else happens during the insert: returns the
        records handed to the batch insert (none when there is no client, nothing is
        selected, or every selected row is saved); on success their keys join the saved
        set, on failure it is unchanged. */
    method SaveSelected(hasClient: bool, insertSucceeded: bool) returns (batch: seq<MedicalProfessional>)
      modifies this
      ensures !hasClient || old(selectedIds) == {} ==>
        batch == [] && savedIds == old(savedIds) && isSavingSelected == old(isSavingSelected)
      ensures hasClient && old(selectedIds) != {} ==>
        batch == UnsavedSelection(results, old(selectedIds), old(savedIds))
      ensures savedIds == if insertSucceeded && batch != [] then old(savedIds) + KeySet(batch) else old(savedIds)
      ensures hasClient && old(selectedIds) != {} ==> !isSavingSelected
      ensures selectedIds == old(selectedIds) && savingIds == old(savingIds)
    {
      batch := BeginSaveSelected(hasClient);
      if batch != [] {
        FinishSaveSelected(batch, insertSucceeded);
      }
    }

    /** `handleExportSelected`: nothing when the selection is empty, otherwise the
        selected rows in row order. */
    method ExportSelected() returns (exported: Option<seq<MedicalProfessional>>)
      ensures selectedIds == {} <==> exported.None?
      ensures exported.Some? ==> exported.value == SelectedRecords(results, selectedIds)
    {
      if |selectedIds| == 0 {
        return None;
      }
      exported := Some(SelectedRecords(results, selectedIds));
    }
  }

  /** A single save that completes while a batch insert is in flight: the batch handler
      as written rebuilds the saved set from the one it began with, and the single
      save's key is lost although its insert succeeded. */
  method LostSaveScenario() returns (s: Selection, p: MedicalProfessional, q: MedicalProfessional)
    ensures s.results == [p, q] && RecordKey(p) != RecordKey(q)
    ensures RecordKey(q) in s.savedIds && RecordKey(p) !in s.savedIds
  {
    p := MedicalProfessional(None, "Rao", "Pune", "Care", "12345", 0, 0, "surgeon", None, None);
    q := MedicalProfessional(None, "Das", "Pune", "Care", "67890", 0, 0, "surgeon", None, None);
    assert 'R' in RecordKey(p) && 'R' !in RecordKey(q);
    s := new Selection([p, q]);
    s.ToggleSelect(RecordKey(q));
    var snapshot := s.savedIds;
    var batch := s.BeginSaveSelected(true);
    assert q in batch;
    var started := s.BeginSave(p, true);
    s.FinishSave(p, true);
    s.FinishSaveSelectedAsWritten(batch, snapshot, true);
  }

  /** After a successful batch save, saving the same selection again takes nothing. */
  lemma SaveSelectedTwiceSavesNothing(results: seq<MedicalProfessional>, selected: set<string>, saved: set<string>)
    ensures var batch := UnsavedSelection(results, selected, saved);
      UnsavedSelection(results, selected, saved + KeySet(batch)) == []
  {
    var batch := UnsavedSelection(results, selected, saved);
    var f := IsUnsavedSelected(selected, saved + KeySet(batch));
    forall p | p in results
      ensures !f(p)
    {
      if RecordKey(p) in selected && RecordKey(p) !in saved {
        var i :| 0 <= i < |results| && results[i] == p;
        assert p in batch;
        var k :| 0 <= k < |batch| && batch[k] == p;
        assert RecordKey(batch[k]) in KeySet(batch);
      }
    }
    FilterNone(results, f);
  }

  /** With two rows sharing a key, a selection of shown keys never has the size of the
      row list, so select-all never clears it. */
  lemma SelectAllNeverClearsWithDuplicates(results: seq<MedicalProfessional>, selected: set<string>)
    requires HasDuplicateKeys(results) && selected <= KeySet(results)
    ensures |selected| != |results|
  {
    var i, j :| 0 <= i < j < |results| && RecordKey(results[i]) == RecordKey(results[j]);
    RepeatedKeyShrinks(results, RecordKey, i, j);
    assert |selected| <= |KeySet(results)| by {
      SubsetCard(selected, KeySet(results));
    }
  }

  lemma SubsetCard(a: set<string>, b: set<string>)
    requires a <= b
    ensures |a| <= |b|
  {
    assert b == a + (b - a);
  }
}

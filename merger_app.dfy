/**
 * The window of the merger: the ordered list of chosen files, the listbox
 * that shows each file's base name in the same order, the single listbox
 * selection and the output-name entry, with the buttons that change them
 * and the guard that runs before the merge job.
 */
module MergerGui {
  import opened Common
  import opened Paths
  import opened MergeJob

  // ---------------------------------------------------------------------
  // Sequence operations the buttons perform.

  predicate Distinct(s: seq<string>) {
    forall i, j :: 0 <= i < j < |s| ==> s[i] != s[j]
  }

  /** Position of the first occurrence of x in s. */
  function IndexOf(s: seq<string>, x: string): (k: nat)
    requires x in s
    ensures k < |s| && s[k] == x
    ensures forall j :: 0 <= j < k ==> s[j] != x
  {
    if s[0] == x then 0 else 1 + IndexOf(s[1..], x)
  }

  /**
   * The paths a selection appends to a list: each chosen path in turn,
   * unless it is already in the list or was appended earlier in the same
   * selection.
   */
  function Added(existing: seq<string>, chosen: seq<string>): seq<string>
    decreases |chosen|
  {
    if chosen == [] then []
    else
      var earlier := Added(existing, chosen[..|chosen| - 1]);
      var f := chosen[|chosen| - 1];
      if f in existing + earlier then earlier else earlier + [f]
  }

  /** `del s[i]` */
  function RemoveAt(s: seq<string>, i: nat): (r: seq<string>)
    requires i < |s|
    ensures |r| == |s| - 1
  {
    s[..i] + s[i + 1..]
  }

  /** `s.insert(i, x)` */
  function InsertAt(s: seq<string>, i: nat, x: string): (r: seq<string>)
    requires i <= |s|
    ensures |r| == |s| + 1
  {
    s[..i] + [x] + s[i..]
  }

  /** `s[i], s[j] = s[j], s[i]` */
  function Swap(s: seq<string>, i: nat, j: nat): (r: seq<string>)
    requires i < |s| && j < |s|
    ensures |r| == |s|
  {
    s[i := s[j]][j := s[i]]
  }

  /** The caption of each entry, row for row; the listbox labels a file by its base name. */
  function Map(caption: string -> string, s: seq<string>): (rows: seq<string>)
    ensures |rows| == |s|
  {
    seq(|s|, k requires 0 <= k < |s| => caption(s[k]))
  }

  // ---------------------------------------------------------------------
  // What the operations promise.

  /**
   * A selection appends exactly the chosen paths that were not yet listed,
   * each once.
   */
  lemma {:induction false} AddedMembers(existing: seq<string>, chosen: seq<string>)
    ensures forall x :: x in Added(existing, chosen) <==> x in chosen && x !in existing
    ensures Distinct(Added(existing, chosen))
    decreases |chosen|
  {
    if chosen != [] {
      var n := |chosen| - 1;
      AddedMembers(existing, chosen[..n]);
      assert chosen == chosen[..n] + [chosen[n]];
    }
  }

  /** Every element of a occurs in s, and a lists them by their first position in s. */
  predicate InFirstOccurrenceOrder(a: seq<string>, s: seq<string>) {
    forall i, j :: 0 <= i < j < |a| ==> a[i] in s && a[j] in s && IndexOf(s, a[i]) < IndexOf(s, a[j])
  }

  /** The appended paths keep the order of their first occurrence in the selection. */
  lemma {:induction false} AddedOrder(existing: seq<string>, chosen: seq<string>)
    ensures InFirstOccurrenceOrder(Added(existing, chosen), chosen)
    decreases |chosen|
  {
    if chosen != [] {
      var n := |chosen| - 1;
      var pre, f := chosen[..n], chosen[n];
      assert chosen == pre + [f];
      AddedMembers(existing, pre);
      AddedOrder(existing, pre);
      var earlier := Added(existing, pre);
      PrefixIndices(pre, f);
      if f !in existing + earlier {
        assert f !in pre;
        AppendLastOccurrence(earlier, pre, f);
      }
    }
  }

  /** Positions in s are positions in s + [f]. */
  lemma PrefixIndices(s: seq<string>, f: string)
    ensures forall x :: x in s ==> x in s + [f] && IndexOf(s + [f], x) == IndexOf(s, x) < |s|
  {
    forall x | x in s ensures x in s + [f] && IndexOf(s + [f], x) == IndexOf(s, x) < |s| {
      PrefixIndexOf(s, [f], x);
    }
  }

  lemma AppendLastOccurrence(a: seq<string>, s: seq<string>, f: string)
    requires InFirstOccurrenceOrder(a, s)
    requires forall x :: x in a ==> x in s
    requires f !in s
    ensures InFirstOccurrenceOrder(a + [f], s + [f])
  {
    var a', s' := a + [f], s + [f];
    assert IndexOf(s', f) == |s|;
    forall i, j | 0 <= i < j < |a'|
      ensures a'[i] in s' && a'[j] in s' && IndexOf(s', a'[i]) < IndexOf(s', a'[j])
    {
      var x := a[i];
      assert a'[i] == x && x in s;
      PrefixIndexOf(s, [f], x);
      if j < |a| {
        var y := a[j];
        assert a'[j] == y && y in s;
        PrefixIndexOf(s, [f], y);
      } else {
        assert a'[j] == f;
      }
    }
  }

  /** One more chosen path: appended unless already listed or already appended. */
  lemma AddedSnoc(existing: seq<string>, chosen: seq<string>, k: nat)
    requires k < |chosen|
    ensures Added(existing, chosen[..k + 1]) ==
      if chosen[k] in existing + Added(existing, chosen[..k]) then Added(existing, chosen[..k])
      else Added(existing, chosen[..k]) + [chosen[k]]
  {
    assert chosen[..k + 1][..k] == chosen[..k];
  }

  lemma MapSnoc(caption: string -> string, s: seq<string>, x: string)
    ensures Map(caption, s + [x]) == Map(caption, s) + [caption(x)]
  {
  }

  lemma MapAppend(caption: string -> string, s: seq<string>, t: seq<string>)
    ensures Map(caption, s + t) == Map(caption, s) + Map(caption, t)
  {
    var a, b := Map(caption, s + t), Map(caption, s) + Map(caption, t);
    forall k | 0 <= k < |a| ensures a[k] == b[k] {
      if k < |s| {
        assert (s + t)[k] == s[k];
      } else {
        assert (s + t)[k] == t[k - |s|];
      }
    }
  }

  /** Nothing is appended when every chosen path is already listed. */
  lemma {:induction false} NothingNewAdded(existing: seq<string>, chosen: seq<string>)
    requires forall k :: 0 <= k < |chosen| ==> chosen[k] in existing
    ensures Added(existing, chosen) == []
    decreases |chosen|
  {
    if chosen != [] {
      NothingNewAdded(existing, chosen[..|chosen| - 1]);
    }
  }

  lemma {:induction false} PrefixIndexOf(s: seq<string>, t: seq<string>, x: string)
    requires x in s
    ensures IndexOf(s + t, x) == IndexOf(s, x)
  {
    if s[0] != x {
      assert (s + t)[1..] == s[1..] + t;
      PrefixIndexOf(s[1..], t, x);
    }
  }

  /** A list without repeated paths keeps that property under add_files. */
  lemma AddKeepsDistinct(existing: seq<string>, chosen: seq<string>)
    requires Distinct(existing)
    ensures Distinct(existing + Added(existing, chosen))
  {
    AddedMembers(existing, chosen);
    var s, a := existing + Added(existing, chosen), Added(existing, chosen);
    forall i, j | 0 <= i < j < |s| ensures s[i] != s[j] {
      if j >= |existing| && i < |existing| {
        assert s[j] == a[j - |existing|] && s[i] in existing;
      }
    }
  }

  /** Choosing the same files a second time adds nothing. */
  lemma AddTwiceAddsNothing(existing: seq<string>, chosen: seq<string>)
    ensures Added(existing + Added(existing, chosen), chosen) == []
  {
    AddedMembers(existing, chosen);
    NothingNewAdded(existing + Added(existing, chosen), chosen);
  }

  /** Deleting element i keeps the others in their relative order. */
  lemma RemoveAtKeepsOthers(s: seq<string>, i: nat)
    requires i < |s|
    ensures forall k :: 0 <= k < i ==> RemoveAt(s, i)[k] == s[k]
    ensures forall k :: i <= k < |s| - 1 ==> RemoveAt(s, i)[k] == s[k + 1]
    ensures multiset(RemoveAt(s, i)) + multiset{s[i]} == multiset(s)
    ensures Distinct(s) ==> Distinct(RemoveAt(s, i))
  {
    assert s == s[..i] + [s[i]] + s[i + 1..];
  }

  /** A swap exchanges the two entries and leaves every other one in place. */
  lemma SwapExchanges(s: seq<string>, i: nat, j: nat)
    requires i < |s| && j < |s|
    ensures Swap(s, i, j)[i] == s[j] && Swap(s, i, j)[j] == s[i]
    ensures forall k :: 0 <= k < |s| && k != i && k != j ==> Swap(s, i, j)[k] == s[k]
    ensures Swap(Swap(s, i, j), i, j) == s
  {
  }

  /** A swap reorders and neither loses nor duplicates a file. */
  lemma SwapPermutes(s: seq<string>, i: nat, j: nat)
    requires i < |s| && j < |s|
    ensures multiset(Swap(s, i, j)) == multiset(s)
    ensures Distinct(s) ==> Distinct(Swap(s, i, j))
  {
    var r := Swap(s, i, j);
    if i != j {
      assert multiset(s[i := s[j]]) == multiset(s) - multiset{s[i]} + multiset{s[j]};
    }
    if Distinct(s) {
      forall a, b | 0 <= a < b < |r| ensures r[a] != r[b] {
        var a' := if a == i then j else if a == j then i else a;
        var b' := if b == i then j else if b == j then i else b;
        assert r[a] == s[a'] && r[b] == s[b'];
      }
    }
  }

  /** The listbox's get, delete and insert move a row exactly as the list's swap moves its entry. */
  lemma DeleteInsertSwaps(s: seq<string>, i: nat)
    requires 0 < i < |s|
    ensures InsertAt(RemoveAt(s, i), i - 1, s[i]) == Swap(s, i - 1, i)
    ensures InsertAt(RemoveAt(s, i - 1), i, s[i - 1]) == Swap(s, i - 1, i)
  {
  }

  /** Swapping two files and swapping the same two rows keeps the listbox a mirror of the list. */
  lemma SwapMirrors(caption: string -> string, files: seq<string>, i: nat, j: nat)
    requires i < |files| && j < |files|
    ensures Map(caption, Swap(files, i, j)) == Swap(Map(caption, files), i, j)
  {
    var a, b := Map(caption, Swap(files, i, j)), Swap(Map(caption, files), i, j);
    forall k | 0 <= k < |a| ensures a[k] == b[k] {
      var k' := if k == i then j else if k == j then i else k;
      assert Swap(files, i, j)[k] == files[k'] && b[k] == Map(caption, files)[k'];
    }
  }

  /** Deleting the same index from the list and from the listbox keeps the mirror. */
  lemma RemoveMirrors(caption: string -> string, files: seq<string>, i: nat)
    requires i < |files|
    ensures Map(caption, RemoveAt(files, i)) == RemoveAt(Map(caption, files), i)
  {
    var a, b := Map(caption, RemoveAt(files, i)), RemoveAt(Map(caption, files), i);
    forall k | 0 <= k < |a| ensures a[k] == b[k] {
      var k' := if k < i then k else k + 1;
      assert RemoveAt(files, i)[k] == files[k'] && b[k] == Map(caption, files)[k'];
    }
  }

  /** What the merge button reports. */
  datatype Notice =
    | NoFilesWarning
    | NoOutputWarning
    | Succeeded(message: Message)
    | Failed(message: Message)

  /** The notice for a finished merge job. */
  function Report(r: MergeResult): (n: Notice)
    ensures n.Succeeded? <==> r.success
    ensures n.Succeeded? || n.Failed?
    ensures n.message == r.message
  {
    if r.success then Succeeded(r.message) else Failed(r.message)
  }

  // ---------------------------------------------------------------------
  // The window.

  class MergerApp {
    var files: seq<string>
    var rows: seq<string>
    var selection: Option<nat>
    var output: string

    /** The listbox mirrors the list and a selection names one of its rows. */
    ghost predicate Valid()
      reads this
    {
      rows == Map(Basename, files) && (selection.Some? ==> selection.value < |rows|)
    }

    constructor()
      ensures Valid()
      ensures files == [] && rows == [] && selection == None
      ensures output == "merged_output.pdf"
    {
      files, rows, selection := [], [], None;
      output := "merged_output.pdf";
    }

    /** A click on row k of the single-selection listbox. */
    method SelectRow(k: nat)
      requires Valid() && k < |rows|
      modifies this
      ensures Valid()
      ensures selection == Some(k)
      ensures files == old(files) && rows == old(rows) && output == old(output)
    {
      selection := Some(k);
    }

    /** The user types into the output entry. */
    method EditOutput(text: string)
      requires Valid()
      modifies this
      ensures Valid()
      ensures output == text
      ensures files == old(files) && rows == old(rows) && selection == old(selection)
    {
      output := text;
    }

    /** select_output_file with the name the save dialog returned; an empty name means it was cancelled. */
    method ChooseOutput(chosen: string)
      requires Valid()
      modifies this
      ensures Valid()
      ensures output == if chosen == [] then old(output) else chosen
      ensures files == old(files) && rows == old(rows) && selection == old(selection)
    {
      if chosen != [] {
        output := chosen;
      }
    }

    /** add_files with the paths the open dialog returned, in order. */
    method AddFiles(chosen: seq<string>)
      requires Valid()
      modifies this
      ensures Valid()
      ensures files == old(files) + Added(old(files), chosen)
      ensures rows == old(rows) + Map(Basename, Added(old(files), chosen))
      ensures selection == old(selection) && output == old(output)
    {
      var k := 0;
      while k < |chosen|
        invariant 0 <= k <= |chosen|
        invariant files == old(files) + Added(old(files), chosen[..k])
        invariant rows == Map(Basename, files)
        invariant selection == old(selection) && output == old(output)
      {
        var path := chosen[k];
        AddedSnoc(old(files), chosen, k);
        if path !in files {
          MapSnoc(Basename, files, path);
          files := files + [path];
          rows := rows + [Basename(path)];
        }
        k := k + 1;
      }
      assert chosen[..k] == chosen;
      MapAppend(Basename, old(files), Added(old(files), chosen));
    }

    /** remove_file: deletes the selected entry from the list and the listbox. */
    method RemoveFile()
      requires Valid()
      modifies this
      ensures Valid()
      ensures old(selection).None? ==> files == old(files) && rows == old(rows) && selection == old(selection)
      ensures old(selection).Some? ==>
        files == RemoveAt(old(files), old(selection).value) &&
        rows == RemoveAt(old(rows), old(selection).value) &&
        selection.None?
      ensures output == old(output)
    {
      if selection.Some? {
        var i := selection.value;
        RemoveMirrors(Basename, files, i);
        files := RemoveAt(files, i);
        rows := RemoveAt(rows, i);
        selection := None;
      }
    }

    /** move_up: swaps the selected entry with the one above it and selects it there. */
    method MoveUp()
      requires Valid()
      modifies this
      ensures Valid()
      ensures if old(selection).Some? && 0 < old(selection).value then
          var i := old(selection).value;
          files == Swap(old(files), i - 1, i) && rows == Swap(old(rows), i - 1, i) && selection == Some(i - 1)
        else
          files == old(files) && rows == old(rows) && selection == old(selection)
      ensures output == old(output)
    {
      if selection.Some? {
        var i := selection.value;
        if i > 0 {
          SwapMirrors(Basename, files, i - 1, i);
          DeleteInsertSwaps(rows, i);
          var text := rows[i];
          var moved := InsertAt(RemoveAt(rows, i), i - 1, text);
          files, rows, selection := Swap(files, i - 1, i), moved, Some(i - 1);
        }
      }
    }

    /** move_down: swaps the selected entry with the one below it and selects it there. */
    method MoveDown()
      requires Valid()
      modifies this
      ensures Valid()
      ensures if old(selection).Some? && old(selection).value < |old(rows)| - 1 then
          var i := old(selection).value;
          files == Swap(old(files), i, i + 1) && rows == Swap(old(rows), i, i + 1) && selection == Some(i + 1)
        else
          files == old(files) && rows == old(rows) && selection == old(selection)
      ensures output == old(output)
    {
      if selection.Some? {
        var i := selection.value;
        if i < |rows| - 1 {
          SwapMirrors(Basename, files, i, i + 1);
          DeleteInsertSwaps(rows, i + 1);
          var text := rows[i];
          var moved := InsertAt(RemoveAt(rows, i), i + 1, text);
          files, rows, selection := Swap(files, i, i + 1), moved, Some(i + 1);
        }
      }
    }

    /**
     * merge_selected_files: warns without calling the merge job when the
     * list or the output entry is empty; otherwise runs it on the list in
     * its current order and reports its outcome.
     */
    method MergeSelected(env: Env) returns (n: Notice)
      requires Valid()
      ensures n == NoFilesWarning <==> files == []
      ensures n == NoOutputWarning <==> files != [] && output == []
      ensures files != [] && output != [] ==> n == Report(Merge(env, files, output))
    {
      if files == [] {
        return NoFilesWarning;
      }
      if output == [] {
        return NoOutputWarning;
      }
      var r := MergeFiles(env, files, output);
      n := Report(r);
    }
  }
}

/** The transaction store of app.py: a table of pre-signed transaction rows that
    every button reads whole, changes, and writes back whole. Row labels are the
    positions 0..n-1 of the freshly loaded table. */
module TransactionStore {
  import opened Records

  /** Whether row `x` is picked by the mask "Username == u" (owned) or by its
      negation "Username != u" (not owned). */
  predicate Selected(x: Transaction, u: string, owned: bool) {
    (x.owner == u) == owned
  }

  /** The positions of the rows the mask picks, in strictly increasing order;
      each holds a picked row. */
  function SelectPositions(t: seq<Transaction>, u: string, owned: bool): (ps: seq<nat>)
    ensures forall j | 0 <= j < |ps| :: ps[j] < |t| && Selected(t[ps[j]], u, owned)
    ensures forall j, k | 0 <= j < k < |ps| :: ps[j] < ps[k]
    decreases |t|
  {
    if t == [] then []
    else
      var n := |t| - 1;
      SelectPositions(t[..n], u, owned) + (if Selected(t[n], u, owned) then [n] else [])
  }

  /** No picked row is missed: the position of every row the mask picks is
      among the picked positions. */
  lemma {:induction false} SelectPositionsComplete(t: seq<Transaction>, u: string, owned: bool, i: nat)
    requires i < |t| && Selected(t[i], u, owned)
    ensures i in SelectPositions(t, u, owned)
    decreases |t|
  {
    var n := |t| - 1;
    if i < n {
      SelectPositionsComplete(t[..n], u, owned, i);
    }
  }

  /** The rows the mask picks, in table order (a filter of the table). */
  function Select(t: seq<Transaction>, u: string, owned: bool): (rows: seq<Transaction>)
    ensures |rows| <= |t|
    ensures forall j | 0 <= j < |rows| :: Selected(rows[j], u, owned)
    decreases |t|
  {
    if t == [] then []
    else
      var n := |t| - 1;
      Select(t[..n], u, owned) + (if Selected(t[n], u, owned) then [t[n]] else [])
  }

  /** The filtered table lists the picked rows in table order: its j-th row is
      the row at the j-th picked position. */
  lemma {:induction false} SelectAtPositions(t: seq<Transaction>, u: string, owned: bool)
    ensures |Select(t, u, owned)| == |SelectPositions(t, u, owned)|
    ensures forall j | 0 <= j < |Select(t, u, owned)| ::
              Select(t, u, owned)[j] == t[SelectPositions(t, u, owned)[j]]
    decreases |t|
  {
    if t != [] {
      var n := |t| - 1;
      SelectAtPositions(t[..n], u, owned);
      var prev, prevPos := Select(t[..n], u, owned), SelectPositions(t[..n], u, owned);
      var rows, ps := Select(t, u, owned), SelectPositions(t, u, owned);
      assert rows == prev + (if Selected(t[n], u, owned) then [t[n]] else []);
      assert ps == prevPos + (if Selected(t[n], u, owned) then [n] else []);
      forall j | 0 <= j < |rows| ensures rows[j] == t[ps[j]] {
        if j < |prev| {
          assert rows[j] == prev[j] && ps[j] == prevPos[j];
          assert t[..n][prevPos[j]] == t[prevPos[j]];
        }
      }
    }
  }

  /** The per-owner view (app.py:127-128): only the owner's rows, in table order;
      view number p (1-based) shows its entry p - 1. */
  function OwnerView(t: seq<Transaction>, u: string): (view: seq<Transaction>)
    ensures |view| <= |t|
    ensures forall j | 0 <= j < |view| :: view[j].owner == u
  {
    Select(t, u, true)
  }

  /** Clear All Transactions (app.py:181): the rows of every other owner, in table
      order; the cleared owner has no row left, and the rows kept plus the owner's
      view make up the whole table. */
  function ClearOwner(t: seq<Transaction>, u: string): (rest: seq<Transaction>)
    ensures |rest| + |OwnerView(t, u)| == |t|
    ensures multiset(rest) + multiset(OwnerView(t, u)) == multiset(t)
    ensures forall j | 0 <= j < |rest| :: rest[j].owner != u
  {
    PartitionSizes(t, u);
    PartitionRows(t, u);
    Select(t, u, false)
  }

  /** Add Transaction (app.py:110-120): one row for the session user, appended at
      the end, when the amount is positive and the category non-empty; otherwise
      the table is left as it was. */
  function Add(t: seq<Transaction>, u: string, f: FormInput): (r: seq<Transaction>)
    ensures f.amount > 0.0 && f.category != "" ==> r == t + [NewRow(u, f)]
    ensures !(f.amount > 0.0 && f.category != "") ==> r == t
    ensures AllSignConsistent(t) ==> AllSignConsistent(r)
  {
    if f.amount > 0.0 && f.category != "" then t + [NewRow(u, f)] else t
  }

  /** Save Changes as written (app.py:146-150): the five columns of the row whose
      label equals p are overwritten; with no such row nothing is written. The
      length and every other row stay as they were. */
  function EditAt(t: seq<Transaction>, p: nat, f: FormInput): (r: seq<Transaction>)
    ensures |r| == |t|
    ensures forall i | 0 <= i < |t| && i != p :: r[i] == t[i]
    ensures p < |t| ==> r[p] == Apply(t[p], f)
    ensures p >= |t| ==> r == t
  {
    if p < |t| then t[p := Apply(t[p], f)] else t
  }

  datatype DropResult = Dropped(rows: seq<Transaction>) | KeyError(missing: nat)

  /** Delete Transaction as written (app.py:159): drop the row labelled p, or fail
      with KeyError when no row has that label. On success the table is one row
      shorter, the rows before p keep their places, the rows after p move up by
      one, and exactly the row at p has gone. */
  function DropLabel(t: seq<Transaction>, p: nat): (r: DropResult)
    ensures r.KeyError? <==> p >= |t|
    ensures r.KeyError? ==> r.missing == p
    ensures r.Dropped? ==> |r.rows| == |t| - 1
                           && (forall i | 0 <= i < p :: r.rows[i] == t[i])
                           && (forall i | p <= i < |r.rows| :: r.rows[i] == t[i + 1])
                           && multiset(r.rows) + multiset{t[p]} == multiset(t)
  {
    if p < |t| then
      assert t == t[..p] + [t[p]] + t[p + 1..];
      Dropped(t[..p] + t[p + 1..])
    else KeyError(p)
  }

  /** The mask splits the table: picked and unpicked rows together are all rows. */
  lemma {:induction false} PartitionSizes(t: seq<Transaction>, u: string)
    ensures |Select(t, u, true)| + |Select(t, u, false)| == |t|
    decreases |t|
  {
    if t != [] {
      PartitionSizes(t[..|t| - 1], u);
    }
  }

  /** The owner's rows and the other rows together are the table's rows, as a
      multiset. */
  lemma {:induction false} PartitionRows(t: seq<Transaction>, u: string)
    ensures multiset(Select(t, u, true)) + multiset(Select(t, u, false)) == multiset(t)
    decreases |t|
  {
    if t != [] {
      var n := |t| - 1;
      var x, front := t[n], t[..n];
      PartitionRows(front, u);
      var mine, rest := Select(front, u, true), Select(front, u, false);
      assert t == front + [x];
      assert multiset(t) == multiset(front) + multiset{x};
      if x.owner == u {
        assert Select(t, u, true) == mine + [x];
        assert Select(t, u, false) == rest;
      } else {
        assert Select(t, u, true) == mine;
        assert Select(t, u, false) == rest + [x];
      }
    }
  }

  /** Selecting from a concatenation selects from each part. */
  lemma {:induction false} SelectConcat(a: seq<Transaction>, b: seq<Transaction>, u: string, owned: bool)
    ensures Select(a + b, u, owned) == Select(a, u, owned) + Select(b, u, owned)
    decreases |b|
  {
    if b == [] {
      assert a + b == a;
    } else {
      var n := |b| - 1;
      assert (a + b)[..|a + b| - 1] == a + b[..n];
      SelectConcat(a, b[..n], u, owned);
    }
  }

  /** The positions picked in a prefix are a prefix of those picked in the whole
      table, and every later picked position lies beyond the prefix. */
  lemma {:induction false} PositionsOfPrefix(t: seq<Transaction>, n: nat, u: string, owned: bool)
    requires n <= |t|
    ensures var pre := SelectPositions(t[..n], u, owned);
            var all := SelectPositions(t, u, owned);
            |pre| <= |all| && pre == all[..|pre|]
            && forall j | |pre| <= j < |all| :: all[j] >= n
    decreases |t|
  {
    if n < |t| {
      var m := |t| - 1;
      assert t[..m][..n] == t[..n];
      PositionsOfPrefix(t[..m], n, u, owned);
      var pre := SelectPositions(t[..n], u, owned);
      var prev := SelectPositions(t[..m], u, owned);
      var all := SelectPositions(t, u, owned);
      assert all == prev + (if Selected(t[m], u, owned) then [m] else []);
      assert all[..|pre|] == prev[..|pre|];
      forall j | |pre| <= j < |all| ensures all[j] >= n {
        if j < |prev| {
          assert all[j] == prev[j];
        }
      }
    } else {
      assert t[..n] == t;
    }
  }

  /** Adding a transaction shows up in the session user's view, at its end, and in
      nobody else's. */
  lemma AddEffectOnViews(t: seq<Transaction>, u: string, f: FormInput, v: string)
    ensures OwnerView(Add(t, u, f), v)
            == OwnerView(t, v) + (if f.amount > 0.0 && f.category != "" && v == u then [NewRow(u, f)] else [])
  {
    if f.amount > 0.0 && f.category != "" {
      var row := NewRow(u, f);
      assert (t + [row])[..|t|] == t;
    }
  }

  /** Appending a row, saving the table and loading it again gives back the row,
      unchanged, as the last entry of its owner's view. */
  lemma AddSaveLoadRoundTrip(t: seq<Transaction>, u: string, f: FormInput)
    requires f.amount > 0.0 && f.category != ""
    ensures var view := OwnerView(LoadTable(Some(Add(t, u, f))), u);
            |view| == |OwnerView(t, u)| + 1 && view[|view| - 1] == NewRow(u, f)
  {
    AddEffectOnViews(t, u, f, u);
  }

  /** Save Changes as written never changes an owner column, so every owner's
      positions (and so the length of every view) stay the same. */
  lemma {:induction false} EditAtKeepsPositions(t: seq<Transaction>, p: nat, f: FormInput, v: string, owned: bool)
    ensures SelectPositions(EditAt(t, p, f), v, owned) == SelectPositions(t, v, owned)
    decreases |t|
  {
    if t != [] && p < |t| {
      var n := |t| - 1;
      var e := EditAt(t, p, f);
      assert Selected(e[n], v, owned) == Selected(t[n], v, owned);
      var tail := if Selected(t[n], v, owned) then [n] else [];
      assert SelectPositions(t, v, owned) == SelectPositions(t[..n], v, owned) + tail;
      assert SelectPositions(e, v, owned) == SelectPositions(e[..n], v, owned) + tail;
      if p < n {
        assert e[..n] == EditAt(t[..n], p, f);
        EditAtKeepsPositions(t[..n], p, f, v, owned);
      } else {
        assert e[..n] == t[..n];
      }
    }
  }

  /** The edit path checks no sign: with a non-negative typed amount the sign
      convention survives Save Changes. */
  lemma EditAtKeepsSigns(t: seq<Transaction>, p: nat, f: FormInput)
    requires AllSignConsistent(t)
    requires f.amount >= 0.0
    ensures AllSignConsistent(EditAt(t, p, f))
  {
  }

  /** ... and with a negative typed amount it does not: an Income row saved with
      amount -5 holds a negative income. */
  lemma EditAtNegativeAmountBreaksSign(row: Transaction)
    ensures var f := FormInput("2024-01-01", "salary", Income, -5.0, "");
            EditAt([row], 0, f)[0].amount < 0.0 && !AllSignConsistent(EditAt([row], 0, f))
  {
    var f := FormInput("2024-01-01", "salary", Income, -5.0, "");
    assert !SignConsistent(EditAt([row], 0, f)[0]);
  }

  /** Removing rows keeps the sign convention of the rows left. */
  lemma DropAndClearKeepSigns(t: seq<Transaction>, p: nat, u: string)
    requires AllSignConsistent(t)
    ensures DropLabel(t, p).Dropped? ==> AllSignConsistent(DropLabel(t, p).rows)
    ensures AllSignConsistent(ClearOwner(t, u))
  {
    var rest := ClearOwner(t, u);
    SelectAtPositions(t, u, false);
    forall j | 0 <= j < |rest| ensures SignConsistent(rest[j]) {
      assert rest[j] == t[SelectPositions(t, u, false)[j]];
    }
  }

  /** After Clear All Transactions the cleared owner's view is empty. */
  lemma ClearEmptiesView(t: seq<Transaction>, u: string)
    ensures OwnerView(ClearOwner(t, u), u) == []
  {
    NoOwnedRowsEmptyView(ClearOwner(t, u), u);
  }

  /** A table without any row of `u` gives `u` an empty view. */
  lemma {:induction false} NoOwnedRowsEmptyView(t: seq<Transaction>, u: string)
    requires forall j | 0 <= j < |t| :: t[j].owner != u
    ensures OwnerView(t, u) == []
    decreases |t|
  {
    if t != [] {
      NoOwnedRowsEmptyView(t[..|t| - 1], u);
    }
  }

  /** Clear All Transactions leaves every other owner's view as it was. */
  lemma {:induction false} ClearKeepsOtherViews(t: seq<Transaction>, u: string, v: string)
    requires v != u
    ensures OwnerView(ClearOwner(t, u), v) == OwnerView(t, v)
    decreases |t|
  {
    if t != [] {
      var n := |t| - 1;
      var last := t[n];
      var tail := if Selected(last, u, false) then [last] else [];
      assert t == t[..n] + [last];
      ClearKeepsOtherViews(t[..n], u, v);
      assert ClearOwner(t, u) == ClearOwner(t[..n], u) + tail;
      SelectConcat(ClearOwner(t[..n], u), tail, v, true);
      assert [last][..0] == [];
    }
  }
}

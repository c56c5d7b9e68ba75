/** Edit and delete pick a row by its 1-based number p in the session user's view,
    but app.py:127 discards the table positions (reset_index(drop=True)) before
    numbering the view, so Save Changes and Delete Transaction act on the table row
    labelled p (EditAt, DropLabel) instead of the user's p-th row. This module
    exhibits the discrepancy and gives the evidently intended mapping from view
    number to table position, with the properties it was meant to have. */
module IndexFault {
  import opened Records
  import opened TransactionStore

  /** In a strictly increasing sequence whose first k entries lie below x and the
      rest at or above it, x can only stand at index k. */
  lemma IndexInIncreasing(s: seq<nat>, k: nat, m: nat, x: nat)
    requires k <= |s| && m < |s| && s[m] == x
    requires forall j, l | 0 <= j < l < |s| :: s[j] < s[l]
    requires forall j | 0 <= j < k :: s[j] < x
    requires forall j | k <= j < |s| :: s[j] >= x
    ensures m == k
  {
    if k < |s| {
      assert s[k] >= x;
    }
  }

  /** The p-th picked position (1-based) holds the view's p-th entry and has
      exactly p - 1 picked positions before it. */
  lemma ViewPositionFacts(t: seq<Transaction>, u: string, p: nat)
    requires 1 <= p <= |OwnerView(t, u)|
    ensures |SelectPositions(t, u, true)| == |OwnerView(t, u)|
    ensures var i := SelectPositions(t, u, true)[p - 1];
            i < |t| && OwnerView(t, u)[p - 1] == t[i] && |OwnerView(t[..i], u)| == p - 1
  {
    SelectAtPositions(t, u, true);
    var all := SelectPositions(t, u, true);
    var i := all[p - 1];
    PositionsOfPrefix(t, i, u, true);
    SelectAtPositions(t[..i], u, true);
    var pre := SelectPositions(t[..i], u, true);
    forall j | 0 <= j < |pre| ensures all[j] < i {
      assert all[j] == pre[j];
    }
    IndexInIncreasing(all, |pre|, p - 1, i);
  }

  /** The table position of the user's p-th row (1-based): the row the view shows
      as number p, with exactly p - 1 of the user's rows before it. */
  function ViewPosition(t: seq<Transaction>, u: string, p: nat): (i: nat)
    requires 1 <= p <= |OwnerView(t, u)|
    ensures i < |t| && t[i].owner == u
    ensures OwnerView(t, u)[p - 1] == t[i]
    ensures |OwnerView(t[..i], u)| == p - 1
  {
    ViewPositionFacts(t, u, p);
    SelectPositions(t, u, true)[p - 1]
  }

  /** The view of a table cut around one row is made of the views of its parts. */
  lemma ViewOfSplit(a: seq<Transaction>, x: Transaction, b: seq<Transaction>, v: string)
    ensures OwnerView(a + [x] + b, v) == OwnerView(a, v) + (if x.owner == v then [x] else []) + OwnerView(b, v)
    ensures OwnerView(a + b, v) == OwnerView(a, v) + OwnerView(b, v)
  {
    SelectConcat(a + [x], b, v, true);
    SelectConcat(a, [x], v, true);
    SelectConcat(a, b, v, true);
    assert [x][..0] == [];
  }

  /** The view of a table of two rows. */
  lemma ViewOfPair(a: Transaction, b: Transaction, v: string)
    ensures OwnerView([a], v) == if a.owner == v then [a] else []
    ensures OwnerView([a, b], v) == OwnerView([a], v) + (if b.owner == v then [b] else [])
  {
    assert [a][..0] == [];
    assert [a, b][..1] == [a];
  }

  /** Replacing the entry that follows a prefix. */
  lemma ReplaceAfter(a: seq<Transaction>, x: Transaction, y: Transaction, b: seq<Transaction>)
    ensures (a + [x] + b)[|a| := y] == a + [y] + b
    ensures (a + [x] + b)[..|a|] + (a + [x] + b)[|a| + 1..] == a + b
  {
    assert (a + [x] + b)[..|a|] == a;
    assert (a + [x] + b)[|a| + 1..] == b;
  }

  /** Save Changes as intended: the form's values go into the user's p-th row,
      and the table keeps its length. */
  function EditOwnRow(t: seq<Transaction>, u: string, p: nat, f: FormInput): (r: seq<Transaction>)
    requires 1 <= p <= |OwnerView(t, u)|
    ensures |r| == |t|
    ensures r[ViewPosition(t, u, p)] == Apply(OwnerView(t, u)[p - 1], f)
  {
    EditAt(t, ViewPosition(t, u, p), f)
  }

  /** The edit shows up in the user's view as entry p, and nowhere else. */
  lemma EditOwnRowView(t: seq<Transaction>, u: string, p: nat, f: FormInput)
    requires 1 <= p <= |OwnerView(t, u)|
    ensures OwnerView(EditOwnRow(t, u, p, f), u) == OwnerView(t, u)[p - 1 := Apply(OwnerView(t, u)[p - 1], f)]
  {
    var i := ViewPosition(t, u, p);
    var a, x, b := t[..i], t[i], t[i + 1..];
    assert t == a + [x] + b;
    assert EditOwnRow(t, u, p, f) == a + [Apply(x, f)] + b;
    ViewOfSplit(a, x, b, u);
    ViewOfSplit(a, Apply(x, f), b, u);
    ReplaceAfter(OwnerView(a, u), x, Apply(x, f), OwnerView(b, u));
  }

  /** ... and it leaves every other owner's view alone. */
  lemma EditOwnRowKeepsOtherViews(t: seq<Transaction>, u: string, p: nat, f: FormInput, v: string)
    requires 1 <= p <= |OwnerView(t, u)|
    requires v != u
    ensures OwnerView(EditOwnRow(t, u, p, f), v) == OwnerView(t, v)
  {
    var i := ViewPosition(t, u, p);
    var a, x, b := t[..i], t[i], t[i + 1..];
    assert t == a + [x] + b;
    assert EditOwnRow(t, u, p, f) == a + [Apply(x, f)] + b;
    ViewOfSplit(a, x, b, v);
    ViewOfSplit(a, Apply(x, f), b, v);
  }

  /** Delete Transaction as intended: never a KeyError; exactly one row, the
      user's p-th, leaves the table. */
  function DeleteOwnRow(t: seq<Transaction>, u: string, p: nat): (r: seq<Transaction>)
    requires 1 <= p <= |OwnerView(t, u)|
    ensures |r| == |t| - 1
    ensures r == t[..ViewPosition(t, u, p)] + t[ViewPosition(t, u, p) + 1..]
  {
    DropLabel(t, ViewPosition(t, u, p)).rows
  }

  /** The user's view loses exactly its p-th entry. */
  lemma DeleteOwnRowView(t: seq<Transaction>, u: string, p: nat)
    requires 1 <= p <= |OwnerView(t, u)|
    ensures OwnerView(DeleteOwnRow(t, u, p), u) == OwnerView(t, u)[..p - 1] + OwnerView(t, u)[p..]
  {
    var i := ViewPosition(t, u, p);
    var a, x, b := t[..i], t[i], t[i + 1..];
    assert t == a + [x] + b;
    assert DeleteOwnRow(t, u, p) == a + b;
    ViewOfSplit(a, x, b, u);
    ReplaceAfter(OwnerView(a, u), x, x, OwnerView(b, u));
  }

  /** ... and it leaves every other owner's view alone. */
  lemma DeleteOwnRowKeepsOtherViews(t: seq<Transaction>, u: string, p: nat, v: string)
    requires 1 <= p <= |OwnerView(t, u)|
    requires v != u
    ensures OwnerView(DeleteOwnRow(t, u, p), v) == OwnerView(t, v)
  {
    var i := ViewPosition(t, u, p);
    var a, x, b := t[..i], t[i], t[i + 1..];
    assert t == a + [x] + b;
    assert DeleteOwnRow(t, u, p) == a + b;
    ViewOfSplit(a, x, b, v);
  }

  /** The discrepancy on edit. In the table [a, b], where a belongs to the session
      user and b to somebody else, the user's view is [a] and view number 1 is
      their only row; yet Save Changes as written rewrites b (the row labelled 1),
      leaves the user's own view unchanged, and changes the other owner's view
      whenever the form differs from b's columns. */
  lemma AsWrittenEditHitsOtherOwner(a: Transaction, b: Transaction, f: FormInput)
    requires a.owner != b.owner
    requires Apply(b, f) != b
    ensures OwnerView([a, b], a.owner) == [a]
    ensures EditAt([a, b], 1, f) == [a, Apply(b, f)]
    ensures OwnerView(EditAt([a, b], 1, f), a.owner) == OwnerView([a, b], a.owner)
    ensures OwnerView(EditAt([a, b], 1, f), b.owner) != OwnerView([a, b], b.owner)
    ensures EditOwnRow([a, b], a.owner, 1, f) == [Apply(a, f), b]
  {
    var edited := EditAt([a, b], 1, f);
    assert edited == [a, Apply(b, f)];
    ViewOfPair(a, b, a.owner);
    ViewOfPair(a, b, b.owner);
    ViewOfPair(a, Apply(b, f), a.owner);
    ViewOfPair(a, Apply(b, f), b.owner);
    assert OwnerView(edited, b.owner)[0] == Apply(b, f) != b == OwnerView([a, b], b.owner)[0];
    var i := ViewPosition([a, b], a.owner, 1);
    assert i == 0;
    assert EditOwnRow([a, b], a.owner, 1, f) == EditAt([a, b], 0, f);
  }

  /** The discrepancy on delete, first form: in the table [a, b] as above, Delete
      Transaction as written removes b, the other owner's row, and keeps a. */
  lemma AsWrittenDeleteHitsOtherOwner(a: Transaction, b: Transaction)
    requires a.owner != b.owner
    ensures OwnerView([a, b], a.owner) == [a]
    ensures DropLabel([a, b], 1) == Dropped([a])
    ensures DeleteOwnRow([a, b], a.owner, 1) == [b]
  {
    ViewOfPair(a, b, a.owner);
    assert [a, b][..1] == [a];
    var i := ViewPosition([a, b], a.owner, 1);
    assert i == 0;
    assert DeleteOwnRow([a, b], a.owner, 1) == DropLabel([a, b], 0).rows;
  }

  /** The discrepancy on delete, second form: when the table holds only the
      user's single row a, view number 1 is a valid choice but no row is labelled
      1, so Delete Transaction as written raises KeyError and nothing is saved. */
  lemma AsWrittenDeleteRaisesKeyError(a: Transaction)
    ensures OwnerView([a], a.owner) == [a]
    ensures DropLabel([a], 1) == KeyError(1)
    ensures DeleteOwnRow([a], a.owner, 1) == []
  {
    ViewOfPair(a, a, a.owner);
  }
}

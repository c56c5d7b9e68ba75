/** One interactive session of the money tracker (app.py:50-189): the session
    state (authenticated, username) over the two backing files. Each button reads
    its table afresh from the file, changes it, and saves it whole; widget values
    arrive as method parameters. */
module Session {
  import opened Records
  import Credentials
  import opened TransactionStore
  import IndexFault

  /** What the Register button reports (app.py:83-90). */
  datatype RegisterOutcome = PasswordMismatch | EmptyField | Created | AlreadyExists

  class Tracker {
    /** The backing files; None while a file does not exist. */
    var usersFile: Option<seq<UserAccount>>
    var transactionsFile: Option<seq<Transaction>>
    /** st.session_state.authenticated and st.session_state.username. */
    var authenticated: bool
    var username: string

    function Users(): seq<UserAccount>
      reads this
    {
      LoadTable(usersFile)
    }

    function Transactions(): seq<Transaction>
      reads this
    {
      LoadTable(transactionsFile)
    }

    /** The session user's view, numbered 1..k on screen. */
    function View(): seq<Transaction>
      reads this
    {
      OwnerView(Transactions(), username)
    }

    /** Logged out means no username; logged in means a registered username
        (users are never removed, so a login stays backed by a row). */
    ghost predicate Valid()
      reads this
    {
      && (!authenticated ==> username == "")
      && (authenticated ==> username in Credentials.Usernames(Users()))
    }

    /** A fresh session over the files as found: not authenticated, no username
        (app.py:51-55). */
    constructor (users: Option<seq<UserAccount>>, transactions: Option<seq<Transaction>>)
      ensures Valid()
      ensures !authenticated && username == ""
      ensures usersFile == users && transactionsFile == transactions
    {
      usersFile := users;
      transactionsFile := transactions;
      authenticated := false;
      username := "";
    }

    /** The Login button (app.py:68-74): the session becomes (true, u) exactly when
        the credentials match a row; otherwise it stays as it was. */
    method Login(u: string, p: string) returns (ok: bool)
      requires Valid() && !authenticated
      modifies this`authenticated, this`username
      ensures Valid()
      ensures ok == Credentials.Authenticate(Users(), u, p)
      ensures ok ==> authenticated && username == u
      ensures !ok ==> authenticated == old(authenticated) && username == old(username)
    {
      var users := LoadTable(usersFile);
      ok := Credentials.Authenticate(users, u, p);
      if ok {
        ghost var i :| 0 <= i < |users| && users[i].username == u && users[i].password == p;
        assert Credentials.Usernames(users)[i] == u;
        authenticated := true;
        username := u;
      }
    }

    /** The Register button (app.py:82-90): a password mismatch, then an empty
        username or password, are refused without touching the users file;
        otherwise register_user decides, and only a successful registration
        saves. Unique usernames stay unique. */
    method Register(u: string, p: string, confirm: string) returns (outcome: RegisterOutcome)
      requires Valid() && !authenticated
      modifies this`usersFile
      ensures Valid()
      ensures p != confirm ==> outcome == PasswordMismatch
      ensures p == confirm && (|u| == 0 || |p| == 0) ==> outcome == EmptyField
      ensures outcome in {PasswordMismatch, EmptyField, AlreadyExists} ==> usersFile == old(usersFile)
      ensures p == confirm && |u| > 0 && |p| > 0 ==>
                var r := Credentials.RegisterUser(old(Users()), u, p);
                outcome == (if r.created then Created else AlreadyExists)
                && (r.created ==> usersFile == Some(r.users))
      ensures Credentials.UniqueUsernames(old(Users())) ==> Credentials.UniqueUsernames(Users())
    {
      if p != confirm {
        outcome := PasswordMismatch;
      } else if |u| == 0 || |p| == 0 {
        outcome := EmptyField;
      } else {
        var users := LoadTable(usersFile);
        var r := Credentials.RegisterUser(users, u, p);
        if Credentials.UniqueUsernames(users) {
          Credentials.RegisterKeepsUnique(users, u, p);
        }
        if r.created {
          usersFile := Some(r.users);
          outcome := Created;
        } else {
          outcome := AlreadyExists;
        }
      }
    }

    /** The Add Transaction button (app.py:109-123): with a positive amount and a
        non-empty category one row for the session user is appended and saved, and
        it becomes the last entry of the user's view; otherwise nothing is saved. */
    method AddTransaction(f: FormInput) returns (added: bool)
      requires Valid() && authenticated
      modifies this`transactionsFile
      ensures Valid()
      ensures added <==> f.amount > 0.0 && f.category != ""
      ensures added ==> transactionsFile == Some(Add(old(Transactions()), username, f))
      ensures !added ==> transactionsFile == old(transactionsFile)
      ensures View() == old(View()) + (if added then [NewRow(username, f)] else [])
      ensures AllSignConsistent(old(Transactions())) ==> AllSignConsistent(Transactions())
    {
      var rows := LoadTable(transactionsFile);
      AddEffectOnViews(rows, username, f, username);
      added := f.amount > 0.0 && f.category != "";
      if added {
        rows := rows + [NewRow(username, f)];
        transactionsFile := Some(rows);
      }
    }

    /** The Save Changes button as written (app.py:145-151): the five columns are
        written, one after the other, into the row labelled with the view number p,
        whoever owns it (nothing is written when no row has that label), and the
        table is saved. No owner column changes, so every view keeps its length. */
    method SaveChanges(p: nat, f: FormInput)
      requires Valid() && authenticated && 1 <= p <= |View()|
      modifies this`transactionsFile
      ensures transactionsFile == Some(EditAt(old(Transactions()), p, f))
      ensures |View()| == |old(View())|
      ensures forall v :: |OwnerView(Transactions(), v)| == |OwnerView(old(Transactions()), v)|
      ensures Valid()
    {
      var rows := LoadTable(transactionsFile);
      ghost var loaded := rows;
      forall v ensures |OwnerView(EditAt(rows, p, f), v)| == |OwnerView(rows, v)| {
        EditAtKeepsPositions(rows, p, f, v, true);
        SelectAtPositions(rows, v, true);
        SelectAtPositions(EditAt(rows, p, f), v, true);
      }
      if p < |rows| {
        rows := rows[p := rows[p].(date := f.date)];
        rows := rows[p := rows[p].(category := f.category)];
        rows := rows[p := rows[p].(kind := f.kind)];
        rows := rows[p := rows[p].(amount := SignedAmount(f.kind, f.amount))];
        rows := rows[p := rows[p].(notes := f.notes)];
        assert rows == loaded[p := Apply(loaded[p], f)];
      }
      transactionsFile := Some(rows);
    }

    /** The Delete Transaction button as written (app.py:158-161): the row labelled
        with the view number p is dropped and the table saved; when no row has that
        label the drop raises KeyError and nothing is saved. */
    method DeleteTransaction(p: nat) returns (result: DropResult)
      requires Valid() && authenticated && 1 <= p <= |View()|
      modifies this`transactionsFile
      ensures Valid()
      ensures result == DropLabel(old(Transactions()), p)
      ensures result.Dropped? ==> transactionsFile == Some(result.rows) && |Transactions()| == |old(Transactions())| - 1
      ensures result.KeyError? ==> transactionsFile == old(transactionsFile)
    {
      var rows := LoadTable(transactionsFile);
      result := DropLabel(rows, p);
      if result.Dropped? {
        transactionsFile := Some(result.rows);
      }
    }

    /** Save Changes with the view number mapped to the user's own p-th row: the
        user's view changes in entry p only. */
    method SaveChangesToOwnRow(p: nat, f: FormInput)
      requires Valid() && authenticated && 1 <= p <= |View()|
      modifies this`transactionsFile
      ensures Valid()
      ensures transactionsFile == Some(IndexFault.EditOwnRow(old(Transactions()), username, p, f))
      ensures View() == old(View())[p - 1 := Apply(old(View())[p - 1], f)]
    {
      var rows := LoadTable(transactionsFile);
      IndexFault.EditOwnRowView(rows, username, p, f);
      transactionsFile := Some(IndexFault.EditOwnRow(rows, username, p, f));
    }

    /** Delete Transaction with the view number mapped to the user's own p-th row:
        never a KeyError, and the user's view loses exactly entry p. */
    method DeleteOwnTransaction(p: nat)
      requires Valid() && authenticated && 1 <= p <= |View()|
      modifies this`transactionsFile
      ensures Valid()
      ensures transactionsFile == Some(IndexFault.DeleteOwnRow(old(Transactions()), username, p))
      ensures View() == old(View())[..p - 1] + old(View())[p..]
    {
      var rows := LoadTable(transactionsFile);
      IndexFault.DeleteOwnRowView(rows, username, p);
      transactionsFile := Some(IndexFault.DeleteOwnRow(rows, username, p));
    }

    /** The Clear All Transactions button (app.py:180-183): every row of the session
        user goes, the other rows stay in order, and the user's view is empty. */
    method ClearAll()
      requires Valid() && authenticated
      modifies this`transactionsFile
      ensures Valid()
      ensures transactionsFile == Some(ClearOwner(old(Transactions()), username))
      ensures View() == []
      ensures forall v | v != username :: OwnerView(Transactions(), v) == OwnerView(old(Transactions()), v)
    {
      var rows := LoadTable(transactionsFile);
      ClearEmptiesView(rows, username);
      forall v | v != username
        ensures OwnerView(ClearOwner(rows, username), v) == OwnerView(rows, v)
      {
        ClearKeepsOtherViews(rows, username, v);
      }
      transactionsFile := Some(ClearOwner(rows, username));
    }

    /** The Logout button (app.py:186-188): back to (false, ""). */
    method Logout()
      requires Valid() && authenticated
      modifies this`authenticated, this`username
      ensures Valid()
      ensures !authenticated && username == ""
    {
      authenticated := false;
      username := "";
    }
  }

  /** A session from missing files: registering u creates the users file with
      the single row (u, pw), and the session stays logged out. */
  method RegisterOnMissingFile(u: string, pw: string)
    requires |u| > 0 && |pw| > 0
  {
    var tracker := new Tracker(None, None);
    var outcome := tracker.Register(u, pw, pw);
    assert outcome == Created by {
      assert Credentials.Usernames([]) == [];
    }
    assert tracker.usersFile == Some([UserAccount(u, pw)]) && !tracker.authenticated;
  }

  /** Logging in as the first registered user over an empty transactions table
      succeeds, and adding a valid entry leaves exactly that row in the user's
      view. */
  method AddToEmptyTable(users: seq<UserAccount>, f: FormInput)
    requires |users| > 0 && f.amount > 0.0 && f.category != ""
  {
    var tracker := new Tracker(Some(users), Some([]));
    var ok := tracker.Login(users[0].username, users[0].password);
    assert ok;
    var added := tracker.AddTransaction(f);
    assert added && tracker.View() == [NewRow(users[0].username, f)];
  }
}

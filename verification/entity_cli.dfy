/**
 The command loop of the library console, with the prompts peeled off: each
 action arrives with the values the user typed, and each handler yields a
 report instead of printing. The loop keeps one book manager and one user
 manager and runs until the user picks "Exit".
 */
module EntityCli {
  import opened Wrappers
  import opened Entities
  import opened EntityManager

  datatype Catalog = Catalog(books: Manager, users: Manager)

  /** The menu entries, each with the answers its handler prompts for. */
  datatype Action =
    | AddBook(name: string, isbn: string)
    | ListBooks
    | RemoveBook(name: string)
    | GetBook(name: string)
    | AddUser(name: string, age: int)
    | ListUsers
    | RemoveUser(name: string)
    | GetUser(name: string)
    | Exit

  /** What a handler shows the user. */
  datatype Report =
    | Added(description: string)
    | Table(rows: seq<Entity>)
    | Removed(description: string)
    | Found(description: string)
    | NotFound

  /** The actions that read or change the book manager. */
  predicate OnBooks(a: Action)
  {
    a.AddBook? || a.ListBooks? || a.RemoveBook? || a.GetBook?
  }

  /** The actions that read or change the user manager. */
  predicate OnUsers(a: Action)
  {
    a.AddUser? || a.ListUsers? || a.RemoveUser? || a.GetUser?
  }

  /** The shared `get` handler. */
  function GetHandler(m: Manager, name: string): (r: Report)
    ensures r.Found? <==> GetEntity(m, name).Some?
    ensures r == NotFound <==> GetEntity(m, name).None?
    ensures r.Found? ==> r.description == GetDescription(GetEntity(m, name).value)
  {
    match GetEntity(m, name)
    case Some(e) => Found(GetDescription(e))
    case None => NotFound
  }

  /** The shared `remove` handler. */
  function RemoveHandler(m: Manager, name: string): (r: (Manager, Report))
    ensures r.1.Removed? <==> GetEntity(m, name).Some?
    ensures r.1 == NotFound <==> GetEntity(m, name).None?
    ensures r.1.Removed? ==> r.1.description == GetDescription(GetEntity(m, name).value)
    ensures r.0 == RemoveEntity(m, name).0
  {
    match RemoveEntity(m, name)
    case (m', Some(e)) => (m', Removed(GetDescription(e)))
    case (m', None) => (m', NotFound)
  }

  /** One pass of the loop for an action other than "Exit". */
  function Step(c: Catalog, a: Action): (r: (Catalog, Report))
    requires !a.Exit?
    ensures OnBooks(a) ==> r.0.users == c.users
    ensures OnUsers(a) ==> r.0.books == c.books
    ensures a.ListBooks? || a.GetBook? || a.ListUsers? || a.GetUser? ==> r.0 == c
    ensures a.AddBook? ==> r.0.books == AddEntity(c.books, NewBook(a.name, a.isbn)).0
    ensures a.AddBook? ==> r.1 == Added(GetDescription(Book(a.name, a.isbn)))
    ensures a.AddUser? ==> r.0.users == AddEntity(c.users, NewUser(a.name, a.age)).0
    ensures a.AddUser? ==> r.1 == Added(GetDescription(User(a.name, a.age)))
    ensures a.ListBooks? ==> r.1 == Table(c.books.entities)
    ensures a.ListUsers? ==> r.1 == Table(c.users.entities)
    ensures a.GetBook? ==> r.1 == GetHandler(c.books, a.name)
    ensures a.GetUser? ==> r.1 == GetHandler(c.users, a.name)
    ensures a.RemoveBook? ==> r.0.books == RemoveEntity(c.books, a.name).0 && r.1 == RemoveHandler(c.books, a.name).1
    ensures a.RemoveUser? ==> r.0.users == RemoveEntity(c.users, a.name).0 && r.1 == RemoveHandler(c.users, a.name).1
  {
    match a
    case AddBook(name, isbn) =>
      var (books, added) := AddEntity(c.books, NewBook(name, isbn));
      (c.(books := books), Added(GetDescription(added)))
    case ListBooks => (c, Table(GetEntities(c.books)))
    case RemoveBook(name) =>
      var (books, report) := RemoveHandler(c.books, name);
      (c.(books := books), report)
    case GetBook(name) => (c, GetHandler(c.books, name))
    case AddUser(name, age) =>
      var (users, added) := AddEntity(c.users, NewUser(name, age));
      (c.(users := users), Added(GetDescription(added)))
    case ListUsers => (c, Table(GetEntities(c.users)))
    case RemoveUser(name) =>
      var (users, report) := RemoveHandler(c.users, name);
      (c.(users := users), report)
    case GetUser(name) => (c, GetHandler(c.users, name))
  }

  /** The loop: handle actions in order until "Exit" or until the actions run out. */
  function Run(c: Catalog, actions: seq<Action>): (r: (Catalog, seq<Report>))
    ensures |r.1| == ExitIndex(actions)
    decreases |actions|
  {
    if actions == [] || actions[0].Exit? then (c, [])
    else
      var (c', report) := Step(c, actions[0]);
      var (final, reports) := Run(c', actions[1..]);
      (final, [report] + reports)
  }

  /** The index of the first "Exit", or the number of actions when there is none. */
  function ExitIndex(actions: seq<Action>): (k: nat)
    ensures k <= |actions|
    ensures k < |actions| ==> actions[k].Exit?
    ensures forall i :: 0 <= i < k ==> !actions[i].Exit?
  {
    if actions == [] || actions[0].Exit? then 0 else 1 + ExitIndex(actions[1..])
  }

  /** Nothing after the first "Exit" is handled, and every action before it yields one report. */
  lemma {:induction false} RunStopsAtExit(c: Catalog, actions: seq<Action>)
    ensures Run(c, actions) == Run(c, actions[..ExitIndex(actions)])
    decreases |actions|
  {
    if actions != [] && !actions[0].Exit? {
      var c' := Step(c, actions[0]).0;
      RunStopsAtExit(c', actions[1..]);
      var k := ExitIndex(actions);
      assert actions[..k][1..] == actions[1..][..k - 1];
    }
  }

  /** The books the add-book actions among `actions` add, in order. */
  function BooksOf(actions: seq<Action>): seq<Entity>
    decreases |actions|
  {
    if actions == [] then []
    else if actions[0].AddBook? then [NewBook(actions[0].name, actions[0].isbn)] + BooksOf(actions[1..])
    else BooksOf(actions[1..])
  }

  /**
   A run of add-book actions ends with the book manager listing its earlier
   books followed by the new ones in the order they were entered, one report
   per book, and the user manager as it was.
   */
  lemma {:induction false} RunAddsBooks(c: Catalog, actions: seq<Action>)
    requires forall i :: 0 <= i < |actions| ==> actions[i].AddBook?
    ensures Run(c, actions).0.books.entities == c.books.entities + BooksOf(actions)
    ensures Run(c, actions).0.users == c.users
    ensures |Run(c, actions).1| == |actions|
    decreases |actions|
  {
    if actions != [] {
      var book := NewBook(actions[0].name, actions[0].isbn);
      var c' := c.(books := Manager(c.books.entities + [book]));
      RunAddBookFirst(c, actions);
      RunAddsBooks(c', actions[1..]);
      BooksOfFirst(c.books.entities, actions);
    }
  }

  /** One add-book action, then the rest of the run. */
  lemma RunAddBookFirst(c: Catalog, actions: seq<Action>)
    requires actions != [] && actions[0].AddBook?
    ensures var c' := c.(books := Manager(c.books.entities + [NewBook(actions[0].name, actions[0].isbn)]));
      Run(c, actions).0 == Run(c', actions[1..]).0
      && |Run(c, actions).1| == 1 + |Run(c', actions[1..]).1|
  {
  }

  /** The first add-book action's book heads the books the actions add. */
  lemma BooksOfFirst(earlier: seq<Entity>, actions: seq<Action>)
    requires actions != [] && actions[0].AddBook?
    ensures earlier + [NewBook(actions[0].name, actions[0].isbn)] + BooksOf(actions[1..]) == earlier + BooksOf(actions)
  {
    var book := NewBook(actions[0].name, actions[0].isbn);
    var rest := BooksOf(actions[1..]);
    assert BooksOf(actions) == [book] + rest;
    assert earlier + [book] + rest == earlier + ([book] + rest);
  }

  /** Actions on books never touch the user manager. */
  lemma {:induction false} BookActionsKeepUsers(c: Catalog, actions: seq<Action>)
    requires forall i :: 0 <= i < |actions| ==> OnBooks(actions[i]) || actions[i].Exit?
    ensures Run(c, actions).0.users == c.users
    decreases |actions|
  {
    if actions != [] && !actions[0].Exit? {
      BookActionsKeepUsers(Step(c, actions[0]).0, actions[1..]);
    }
  }

  /** Actions on users never touch the book manager. */
  lemma {:induction false} UserActionsKeepBooks(c: Catalog, actions: seq<Action>)
    requires forall i :: 0 <= i < |actions| ==> OnUsers(actions[i]) || actions[i].Exit?
    ensures Run(c, actions).0.books == c.books
    decreases |actions|
  {
    if actions != [] && !actions[0].Exit? {
      UserActionsKeepBooks(Step(c, actions[0]).0, actions[1..]);
    }
  }

  /**
   The loop composes: running actions without "Exit" and then more actions is
   the same as running them joined, with the reports of both in order.
   */
  lemma {:induction false} RunAppend(c: Catalog, first: seq<Action>, second: seq<Action>)
    requires forall i :: 0 <= i < |first| ==> !first[i].Exit?
    ensures Run(c, first + second).0 == Run(Run(c, first).0, second).0
    ensures Run(c, first + second).1 == Run(c, first).1 + Run(Run(c, first).0, second).1
    decreases |first|
  {
    if first == [] {
      assert first + second == second;
      assert Run(c, first) == (c, []);
      ConcatEmpty(Run(c, second).1);
    } else {
      var step := Step(c, first[0]);
      var head, whole := Run(step.0, first[1..]), Run(step.0, first[1..] + second);
      RunAppend(step.0, first[1..], second);
      assert Run(c, first) == (head.0, [step.1] + head.1) by {
        RunCons(c, first, step.0, step.1);
      }
      assert Run(c, first + second) == (whole.0, [step.1] + whole.1) by {
        ConcatHead(first, second);
        RunCons(c, first + second, step.0, step.1);
      }
      RunAppendCons(c, first, second, step.0, step.1);
    }
  }

  /** The step of RunAppend, once the first action's handler is known. */
  lemma RunAppendCons(c: Catalog, first: seq<Action>, second: seq<Action>, next: Catalog, report: Report)
    requires first != []
    requires Run(c, first).0 == Run(next, first[1..]).0
    requires Run(c, first).1 == [report] + Run(next, first[1..]).1
    requires Run(c, first + second).0 == Run(next, first[1..] + second).0
    requires Run(c, first + second).1 == [report] + Run(next, first[1..] + second).1
    requires Run(next, first[1..] + second).0 == Run(Run(next, first[1..]).0, second).0
    requires Run(next, first[1..] + second).1 == Run(next, first[1..]).1 + Run(Run(next, first[1..]).0, second).1
    ensures Run(c, first + second).0 == Run(Run(c, first).0, second).0
    ensures Run(c, first + second).1 == Run(c, first).1 + Run(Run(c, first).0, second).1
  {
    var head := Run(next, first[1..]);
    ConcatAssociates([report], head.1, Run(head.0, second).1);
  }

  /**
   A run that does not start with "Exit" is the first action's handler, then
   the run of the remaining actions from the catalog the handler leaves.
   */
  lemma RunCons(c: Catalog, actions: seq<Action>, next: Catalog, report: Report)
    requires actions != [] && !actions[0].Exit?
    requires Step(c, actions[0]) == (next, report)
    ensures Run(c, actions).0 == Run(next, actions[1..]).0
    ensures Run(c, actions).1 == [report] + Run(next, actions[1..]).1
  {
  }

  /** A joined sequence starts like its first part, and what follows is the rest of both. */
  lemma ConcatHead<T>(a: seq<T>, b: seq<T>)
    requires a != []
    ensures (a + b)[0] == a[0]
    ensures (a + b)[1..] == a[1..] + b
  {
  }

  /** Joining the empty sequence in front changes nothing. */
  lemma ConcatEmpty<T>(a: seq<T>)
    ensures [] + a == a
  {
  }

  /** Joining sequences does not depend on grouping. */
  lemma ConcatAssociates<T>(a: seq<T>, b: seq<T>, c: seq<T>)
    ensures a + (b + c) == (a + b) + c
  {
  }

  /**
   Adding a book, listing, removing it by name and listing again: the first
   list shows just that book, the removal reports its description, and the
   second list is empty.
   */
  lemma AddListRemoveScenario(name: string, isbn: string)
    ensures Run(Catalog(NewManager(), NewManager()),
                [AddBook(name, isbn), ListBooks, RemoveBook(name), ListBooks, Exit]).1
            == [Added(GetDescription(Book(name, isbn))), Table([Book(name, isbn)]),
                Removed(GetDescription(Book(name, isbn))), Table([])]
  {
    var book := Book(name, isbn);
    var actions := [AddBook(name, isbn), ListBooks, RemoveBook(name), ListBooks, Exit];
    var c0 := Catalog(NewManager(), NewManager());
    var c1 := Catalog(Manager([book]), NewManager());
    assert Step(c0, actions[0]) == (c1, Added(GetDescription(book)));
    assert Step(c1, actions[1]) == (c1, Table([book]));
    assert GetEntity(c1.books, name) == Some(book);
    assert Without(c1.books.entities, name) == [];
    assert Step(c1, actions[2]) == (c0, Removed(GetDescription(book)));
    assert Step(c0, actions[3]) == (c0, Table([]));
    assert actions[4..] == [Exit];
    RunCons(c0, actions[3..], c0, Table([]));
    RunCons(c1, actions[2..], c0, Removed(GetDescription(book)));
    RunCons(c1, actions[1..], c1, Table([book]));
    RunCons(c0, actions, c1, Added(GetDescription(book)));
  }
}

/**
 The entity model of the library exercise: an abstract named entity with two
 concrete kinds, books (carrying an ISBN) and users (carrying an age), each
 tagged with its kind and able to describe itself in one line.

 The class hierarchy becomes a sum type; the kind tag is derived from the
 variant, so it cannot disagree with the fields that are present and cannot
 change after construction.
 */
module Entities {
  import opened Wrappers

  /** The two entity kinds (`EntityType.book`, `EntityType.user`). */
  datatype EntityType = BookType | UserType

  datatype Entity =
    | Book(name: string, isbn: string)
    | User(name: string, age: int)

  /** The kind tag every entity carries. */
  function KindOf(e: Entity): (k: EntityType)
    ensures k == BookType <==> e.Book?
    ensures k == UserType <==> e.User?
  {
    match e
    case Book(_, _) => BookType
    case User(_, _) => UserType
  }

  /** `new Book(name, isbn)`: the kind is `book` and both fields are stored as given. */
  function NewBook(name: string, isbn: string): (e: Entity)
    ensures KindOf(e) == BookType
    ensures e.name == name && e.isbn == isbn
  {
    Book(name, isbn)
  }

  /** `new User(name, age)`: the kind is `user` and both fields are stored as given. */
  function NewUser(name: string, age: int): (e: Entity)
    ensures KindOf(e) == UserType
    ensures e.name == name && e.age == age
  {
    User(name, age)
  }

  const BookPrefix: string := "Book with name: \""
  const IsbnInfix: string := "\" and isbn: \""
  const UserPrefix: string := "User with name: \""

  /**
   `getDescription`: a book shows its name and ISBN, each in double quotes;
   a user shows only its name, never its age.
   */
  function GetDescription(e: Entity): (d: string)
    ensures e.Book? ==> BookPrefix <= d
    ensures e.User? ==> UserPrefix <= d
    ensures |d| > 0 && d[|d| - 1] == '"'
  {
    match e
    case Book(name, isbn) => BookPrefix + name + IsbnInfix + isbn + "\""
    case User(name, _) => UserPrefix + name + "\""
  }

  /** The first position at or after `from` holding `c`, if any. */
  function IndexOf(s: string, c: char, from: nat): (r: Option<nat>)
    requires from <= |s|
    ensures r.Some? ==> from <= r.value < |s| && s[r.value] == c
    ensures r.Some? ==> forall j :: from <= j < r.value ==> s[j] != c
    ensures r.None? ==> forall j :: from <= j < |s| ==> s[j] != c
    decreases |s| - from
  {
    if from == |s| then None
    else if s[from] == c then Some(from)
    else IndexOf(s, c, from + 1)
  }

  /** Reads a user's name back out of a user description. */
  function ParseUserDescription(d: string): (r: Option<string>)
    ensures r.Some? ==> forall age :: GetDescription(User(r.value, age)) == d
  {
    if |UserPrefix| < |d| && UserPrefix <= d && d[|d| - 1] == '"' then
      var name := d[|UserPrefix|..|d| - 1];
      assert d == UserPrefix + name + "\"";
      Some(name)
    else
      None
  }

  /**
   Reads a book's name and ISBN back out of a book description, taking the
   name to end at the first double quote after the prefix.
   */
  function ParseBookDescription(d: string): (r: Option<(string, string)>)
    ensures r.Some? ==> '"' !in r.value.0
    ensures r.Some? ==> GetDescription(Book(r.value.0, r.value.1)) == d
  {
    if |BookPrefix| <= |d| && BookPrefix <= d then
      match IndexOf(d, '"', |BookPrefix|)
      case None => None
      case Some(j) =>
        if j + |IsbnInfix| < |d| && d[j..j + |IsbnInfix|] == IsbnInfix && d[|d| - 1] == '"' then
          var name := d[|BookPrefix|..j];
          var isbn := d[j + |IsbnInfix|..|d| - 1];
          assert forall k :: 0 <= k < |name| ==> name[k] == d[|BookPrefix| + k];
          assert d == BookPrefix + name + IsbnInfix + isbn + "\"";
          Some((name, isbn))
        else
          None
    else
      None
  }

  /** A user's description names the user and is recovered from the description alone. */
  lemma UserDescriptionRoundTrip(name: string, age: int)
    ensures ParseUserDescription(GetDescription(User(name, age))) == Some(name)
  {
    var d := GetDescription(User(name, age));
    assert d[|UserPrefix|..|d| - 1] == name;
  }

  /**
   Whatever the name and ISBN, even with double quotes in them, a book's
   description holds both literally, right after the prefix and right after
   the infix that follows the name.
   */
  lemma BookDescriptionEmbeds(name: string, isbn: string)
    ensures var d := GetDescription(Book(name, isbn));
      |d| == |BookPrefix| + |name| + |IsbnInfix| + |isbn| + 1
      && d[..|BookPrefix|] == BookPrefix
      && d[|BookPrefix|..|BookPrefix| + |name|] == name
      && d[|BookPrefix| + |name|..|BookPrefix| + |name| + |IsbnInfix|] == IsbnInfix
      && d[|BookPrefix| + |name| + |IsbnInfix|..|d| - 1] == isbn
  {
    var d := GetDescription(Book(name, isbn));
    assert d == BookPrefix + name + IsbnInfix + isbn + "\"";
  }

  /** Whatever the name, a user's description holds it literally, right after the prefix. */
  lemma UserDescriptionEmbeds(name: string, age: int)
    ensures var d := GetDescription(User(name, age));
      |d| == |UserPrefix| + |name| + 1
      && d[..|UserPrefix|] == UserPrefix
      && d[|UserPrefix|..|d| - 1] == name
  {
    var d := GetDescription(User(name, age));
    assert d == UserPrefix + name + "\"";
  }

  /** The age never shows in a user's description. */
  lemma UserDescriptionIgnoresAge(name: string, age1: int, age2: int)
    ensures GetDescription(User(name, age1)) == GetDescription(User(name, age2))
  {
  }

  /**
   A book whose name holds no double quote is recovered, name and ISBN, from
   its description.
   */
  lemma BookDescriptionRoundTrip(name: string, isbn: string)
    requires '"' !in name
    ensures ParseBookDescription(GetDescription(Book(name, isbn))) == Some((name, isbn))
  {
    var d := GetDescription(Book(name, isbn));
    var j := |BookPrefix| + |name|;
    assert d == BookPrefix + name + IsbnInfix + isbn + "\"";
    assert forall k :: |BookPrefix| <= k < j ==> d[k] == name[k - |BookPrefix|];
    assert d[j] == '"';
    var r := IndexOf(d, '"', |BookPrefix|);
    assert r == Some(j);
    assert d[j..j + |IsbnInfix|] == IsbnInfix;
    assert d[|BookPrefix|..j] == name;
    assert d[j + |IsbnInfix|..|d| - 1] == isbn;
  }

  /** Books whose names hold no double quote have distinct descriptions unless equal. */
  lemma BookDescriptionInjective(n1: string, i1: string, n2: string, i2: string)
    requires '"' !in n1 && '"' !in n2
    requires GetDescription(Book(n1, i1)) == GetDescription(Book(n2, i2))
    ensures n1 == n2 && i1 == i2
  {
    BookDescriptionRoundTrip(n1, i1);
    BookDescriptionRoundTrip(n2, i2);
  }

  /** A book description and a user description are never the same string. */
  lemma KindsDescribedApart(b: Entity, u: Entity)
    requires b.Book? && u.User?
    ensures GetDescription(b) != GetDescription(u)
  {
    assert GetDescription(b)[0] == 'B';
    assert GetDescription(u)[0] == 'U';
  }

  /** Without the no-quote condition, two different books share a description. */
  lemma BookDescriptionAmbiguous()
    ensures GetDescription(Book("a\" and isbn: \"b", "c")) == GetDescription(Book("a", "b\" and isbn: \"c"))
  {
    var name1: string := "a" + IsbnInfix + "b";
    var isbn2: string := "b" + IsbnInfix + "c";
    assert "a\" and isbn: \"b" == name1;
    assert "b\" and isbn: \"c" == isbn2;
    assert BookPrefix + name1 + IsbnInfix + "c" == BookPrefix + "a" + IsbnInfix + isbn2;
  }
}

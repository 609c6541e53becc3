/**
 The command loop of the document console, with the prompts peeled off. Author,
 name and project go straight to the builder; each "Add Requirements" appends a
 row to a list the loop keeps itself, and "Create" hands that whole list to the
 builder, builds and ends the loop. "Exit" ends it without a document.
 */
module DocumentCli {
  import opened Wrappers
  import opened Requirements
  import opened BuilderInstance

  /** The loop's state: the builder it was given and its own list of requirements. */
  datatype Session = Session(builder: Builder, requirements: seq<RequirementDescription>)

  /** The menu entries, each with the answers its handler prompts for. */
  datatype DocAction =
    | AddAuthor(author: string)
    | AddName(name: string)
    | AddProject(project: string)
    | AddRequirements(code: string, description: string)
    | Create
    | Exit

  /** The interface's constructor: the given builder and an empty list. */
  function NewSession(b: Builder): (s: Session)
    ensures s.builder == b && |s.requirements| == 0
  {
    Session(b, [])
  }

  /** "Add Requirements": one row appended to the loop's list; the builder is untouched. */
  function AddRequirement(s: Session, code: string, description: string): (r: Session)
    ensures r.builder == s.builder
    ensures |r.requirements| == |s.requirements| + 1
    ensures r.requirements[..|s.requirements|] == s.requirements
    ensures r.requirements[|s.requirements|] == RequirementDescription(code, description)
  {
    s.(requirements := s.requirements + [RequirementDescription(code, description)])
  }

  /**
   "Create": the whole list becomes the builder's requirements and the built
   document carries it with the author, name and project set so far.
   */
  function CreateDocument(s: Session): (r: (Session, RequirementsDocument))
    ensures r.1.requirements == Some(s.requirements)
    ensures r.1.author == s.builder.author && r.1.name == s.builder.name && r.1.project == s.builder.project
    ensures r.0.builder == SetRequirements(s.builder, s.requirements)
  {
    var b := SetRequirements(s.builder, s.requirements);
    (s.(builder := b), Build(b))
  }

  /** One handler that does not end the loop. */
  function Step(s: Session, a: DocAction): (r: Session)
    requires !a.Create? && !a.Exit?
    ensures a.AddRequirements? ==> r == AddRequirement(s, a.code, a.description)
    ensures a.AddAuthor? ==> r.builder == SetAuthor(s.builder, a.author)
    ensures a.AddName? ==> r.builder == SetName(s.builder, a.name)
    ensures a.AddProject? ==> r.builder == SetProject(s.builder, a.project)
    ensures !a.AddRequirements? ==> r.requirements == s.requirements
  {
    match a
    case AddAuthor(author) => s.(builder := SetAuthor(s.builder, author))
    case AddName(name) => s.(builder := SetName(s.builder, name))
    case AddProject(project) => s.(builder := SetProject(s.builder, project))
    case AddRequirements(code, description) => AddRequirement(s, code, description)
  }

  /** The loop: handle actions until "Create" (which yields the document) or "Exit". */
  function Run(s: Session, actions: seq<DocAction>): (r: (Session, Option<RequirementsDocument>))
    ensures r.1.Some? <==> Creates(actions)
    ensures r.1.Some? ==> r.1.value == Build(r.0.builder) && r.0.builder.requirements == Some(r.0.requirements)
    decreases |actions|
  {
    if actions == [] || actions[0].Exit? then (s, None)
    else if actions[0].Create? then
      var (s', doc) := CreateDocument(s);
      (s', Some(doc))
    else Run(Step(s, actions[0]), actions[1..])
  }

  /**
   The loop run against the one shared builder object: field actions call its
   setters, "Add Requirements" appends to the loop's own list, and "Create"
   hands the list to the builder and builds. It ends with the object in the
   state, and with the document, that `Run` describes.
   */
  method RunConsole(b: RequirementsDocumentBuilder, actions: seq<DocAction>)
    returns (doc: Option<RequirementsDocument>)
    modifies b
    ensures doc == Run(NewSession(old(b.State())), actions).1
    ensures b.State() == Run(NewSession(old(b.State())), actions).0.builder
  {
    var requirements: seq<RequirementDescription> := [];
    var i := 0;
    doc := None;
    while i < |actions| && !actions[i].Create? && !actions[i].Exit?
      invariant 0 <= i <= |actions|
      invariant Run(Session(b.State(), requirements), actions[i..]) == Run(NewSession(old(b.State())), actions)
    {
      assert actions[i..][1..] == actions[i + 1..];
      var self;
      match actions[i] {
        case AddAuthor(author) => self := b.SetAuthor(author);
        case AddName(name) => self := b.SetName(name);
        case AddProject(project) => self := b.SetProject(project);
        case AddRequirements(code, description) =>
          requirements := requirements + [RequirementDescription(code, description)];
      }
      i := i + 1;
    }
    if i < |actions| && actions[i].Create? {
      var self := b.SetRequirements(requirements);
      doc := Some(b.Build());
    }
  }

  /** Whether a "Create" comes before any "Exit". */
  predicate Creates(actions: seq<DocAction>)
    decreases |actions|
  {
    if actions == [] || actions[0].Exit? then false
    else actions[0].Create? || Creates(actions[1..])
  }

  /** The setter each field action amounts to; other actions set nothing on the builder. */
  function Setters(actions: seq<DocAction>): seq<Setter>
    decreases |actions|
  {
    if actions == [] || actions[0].Create? || actions[0].Exit? then []
    else
      var rest := Setters(actions[1..]);
      match actions[0]
      case AddAuthor(a) => [Author(a)] + rest
      case AddName(n) => [Name(n)] + rest
      case AddProject(p) => [Project(p)] + rest
      case AddRequirements(_, _) => rest
  }

  /** The rows the "Add Requirements" actions before the first "Create" or "Exit" append, in order. */
  function Rows(actions: seq<DocAction>): seq<RequirementDescription>
    decreases |actions|
  {
    if actions == [] || actions[0].Create? || actions[0].Exit? then []
    else if actions[0].AddRequirements? then
      [RequirementDescription(actions[0].code, actions[0].description)] + Rows(actions[1..])
    else Rows(actions[1..])
  }

  /**
   When "Create" comes before "Exit", the document's author, name and project are the last ones entered (or the
   builder's earlier ones), and its requirements are every row entered
   before "Create", in order, after the rows the session already held.
   */
  lemma {:induction false} RunBuildsEntered(s: Session, actions: seq<DocAction>)
    ensures Creates(actions) ==> Run(s, actions).1.value == RequirementsDocument(
      Last(Setters(actions), AuthorOf, s.builder.author),
      Last(Setters(actions), NameOf, s.builder.name),
      Last(Setters(actions), ProjectOf, s.builder.project),
      Some(s.requirements + Rows(actions)))
    decreases |actions|
  {
    if actions == [] || actions[0].Exit? {
    } else if actions[0].Create? {
      assert s.requirements + Rows(actions) == s.requirements;
    } else {
      var s' := Step(s, actions[0]);
      RunBuildsEntered(s', actions[1..]);
      if actions[0].AddRequirements? {
        assert s.requirements + Rows(actions) == s'.requirements + Rows(actions[1..]);
      }
    }
  }

  /** From a new builder, a run with no "Create" before "Exit" builds nothing. */
  lemma ExitWithoutDocument(actions: seq<DocAction>)
    requires !Creates(actions)
    ensures Run(NewSession(NewBuilder()), actions).1.None?
  {
  }

  /**
   Entering author "Ann", name "Spec", project "X" and the row R1/"desc", then
   "Create", yields the document holding exactly those values.
   */
  lemma FullDocumentScenario()
    ensures Run(NewSession(NewBuilder()),
                [AddAuthor("Ann"), AddName("Spec"), AddProject("X"), AddRequirements("R1", "desc"), Create]).1
            == Some(RequirementsDocument(Some("Ann"), Some("Spec"), Some("X"),
                                         Some([RequirementDescription("R1", "desc")])))
  {
    var actions := [AddAuthor("Ann"), AddName("Spec"), AddProject("X"), AddRequirements("R1", "desc"), Create];
    RunBuildsEntered(NewSession(NewBuilder()), actions);
    assert actions[1..][1..][1..][1..] == [Create];
  }
}

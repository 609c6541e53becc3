/**
 The requirements document and its builder. The builder holds four optional
 fields; each fluent setter overwrites one of them and hands the builder back,
 and `build` copies all four into a new document without resetting anything.

 This module holds the builder's state as a value and the document it builds;
 the builder object itself, with its identity and its single static instance,
 is in `BuilderInstance`. Arrays are values here, so the sharing of one
 requirements array between the caller, the builder and the document is not
 represented.
 */
module Requirements {
  import opened Wrappers

  /** One requirement row: a code and its description. */
  datatype RequirementDescription = RequirementDescription(code: string, description: string)

  datatype Builder = Builder(
    author: Option<string>,
    name: Option<string>,
    project: Option<string>,
    requirements: Option<seq<RequirementDescription>>)

  datatype RequirementsDocument = RequirementsDocument(
    author: Option<string>,
    name: Option<string>,
    project: Option<string>,
    requirements: Option<seq<RequirementDescription>>)

  /** The constructor (private in the source): it sets nothing, so every field is absent. */
  function NewBuilder(): (b: Builder)
    ensures b.author.None? && b.name.None? && b.project.None? && b.requirements.None?
  {
    Builder(None, None, None, None)
  }

  function SetAuthor(b: Builder, author: string): (r: Builder)
    ensures r.author == Some(author)
    ensures r.name == b.name && r.project == b.project && r.requirements == b.requirements
  {
    b.(author := Some(author))
  }

  function SetName(b: Builder, name: string): (r: Builder)
    ensures r.name == Some(name)
    ensures r.author == b.author && r.project == b.project && r.requirements == b.requirements
  {
    b.(name := Some(name))
  }

  function SetProject(b: Builder, project: string): (r: Builder)
    ensures r.project == Some(project)
    ensures r.author == b.author && r.name == b.name && r.requirements == b.requirements
  {
    b.(project := Some(project))
  }

  function SetRequirements(b: Builder, requirements: seq<RequirementDescription>): (r: Builder)
    ensures r.requirements == Some(requirements)
    ensures r.author == b.author && r.name == b.name && r.project == b.project
  {
    b.(requirements := Some(requirements))
  }

  /** `build`: a new document holding the builder's four fields as they are now. */
  function Build(b: Builder): (d: RequirementsDocument)
    ensures d.author == b.author && d.name == b.name
    ensures d.project == b.project && d.requirements == b.requirements
  {
    RequirementsDocument(b.author, b.name, b.project, b.requirements)
  }

  /** A fluent setter call, as it appears in a chain. */
  datatype Setter =
    | Author(author: string)
    | Name(name: string)
    | Project(project: string)
    | Requirements(requirements: seq<RequirementDescription>)

  function Apply(b: Builder, s: Setter): Builder
  {
    match s
    case Author(a) => SetAuthor(b, a)
    case Name(n) => SetName(b, n)
    case Project(p) => SetProject(b, p)
    case Requirements(rs) => SetRequirements(b, rs)
  }

  /** A chain `b.set…(…).set…(…)…`, left to right. */
  function Chain(b: Builder, setters: seq<Setter>): Builder
    decreases |setters|
  {
    if setters == [] then b else Chain(Apply(b, setters[0]), setters[1..])
  }

  /** The value a setter gives the author, if it is an author setter; likewise for the other fields. */
  function AuthorOf(s: Setter): Option<string> { if s.Author? then Some(s.author) else None }
  function NameOf(s: Setter): Option<string> { if s.Name? then Some(s.name) else None }
  function ProjectOf(s: Setter): Option<string> { if s.Project? then Some(s.project) else None }
  function RequirementsOf(s: Setter): Option<seq<RequirementDescription>>
  {
    if s.Requirements? then Some(s.requirements) else None
  }

  /**
   The value the last setter of one field in the chain gave it, or `current`
   if none did; `field` picks out what a setter gives that field.
   */
  function Last<T>(setters: seq<Setter>, field: Setter -> Option<T>, current: Option<T>): Option<T>
    decreases |setters|
  {
    if setters == [] then current
    else Last(setters[1..], field, if field(setters[0]).Some? then field(setters[0]) else current)
  }

  /**
   Building after any chain of setters gives, field by field, the value of the
   last setter for that field, or the builder's earlier value when the chain
   never sets it.
   */
  lemma {:induction false} ChainBuild(b: Builder, setters: seq<Setter>)
    ensures Build(Chain(b, setters)) == RequirementsDocument(
      Last(setters, AuthorOf, b.author), Last(setters, NameOf, b.name),
      Last(setters, ProjectOf, b.project), Last(setters, RequirementsOf, b.requirements))
    decreases |setters|
  {
    if setters != [] {
      ChainBuild(Apply(b, setters[0]), setters[1..]);
    }
  }

  /** Calling a setter twice is the same as calling it once with the second value. */
  lemma LastWriteWins(b: Builder, x: string, y: string, rx: seq<RequirementDescription>, ry: seq<RequirementDescription>)
    ensures SetAuthor(SetAuthor(b, x), y) == SetAuthor(b, y)
    ensures SetName(SetName(b, x), y) == SetName(b, y)
    ensures SetProject(SetProject(b, x), y) == SetProject(b, y)
    ensures SetRequirements(SetRequirements(b, rx), ry) == SetRequirements(b, ry)
  {
  }

  /** Setters of different fields can be called in either order. */
  lemma DistinctSettersCommute(b: Builder, s: Setter, t: Setter)
    requires s.Author? ==> !t.Author?
    requires s.Name? ==> !t.Name?
    requires s.Project? ==> !t.Project?
    requires s.Requirements? ==> !t.Requirements?
    ensures Apply(Apply(b, s), t) == Apply(Apply(b, t), s)
  {
  }

  /**
   `setAuthor("A").setName("N")` on a new builder, then `build`: author and
   name are set and project and requirements are absent.
   */
  lemma AuthorNameScenario()
    ensures Build(SetName(SetAuthor(NewBuilder(), "A"), "N"))
      == RequirementsDocument(Some("A"), Some("N"), None, None)
  {
  }
}

/**
 The builder as the object it is in the source: a class with four mutable
 fields, fluent setters that update this object and return it, and a class
 holding the one static instance that `getInstance` hands out. Because every
 caller gets the same object, an update made through one reference is seen
 through every other.

 The fields are written as the value `Requirements.Builder` by `State`, so the
 value-level properties of the setters and of `build` carry over.
 */
module BuilderInstance {
  import opened Wrappers
  import Requirements

  class RequirementsDocumentBuilder {
    var author: Option<string>
    var name: Option<string>
    var project: Option<string>
    var requirements: Option<seq<Requirements.RequirementDescription>>

    /** The four fields as one value. */
    function State(): Requirements.Builder
      reads this
    {
      Requirements.Builder(author, name, project, requirements)
    }

    /** The constructor (private in the source): it sets nothing, so every field is absent. */
    constructor ()
      ensures author.None? && name.None? && project.None? && requirements.None?
      ensures State() == Requirements.NewBuilder()
    {
      author := None;
      name := None;
      project := None;
      requirements := None;
    }

    method SetAuthor(author: string) returns (r: RequirementsDocumentBuilder)
      modifies this
      ensures r == this
      ensures this.author == Some(author)
      ensures name == old(name) && project == old(project) && requirements == old(requirements)
      ensures State() == Requirements.SetAuthor(old(State()), author)
    {
      this.author := Some(author);
      r := this;
    }

    method SetName(name: string) returns (r: RequirementsDocumentBuilder)
      modifies this
      ensures r == this
      ensures this.name == Some(name)
      ensures author == old(author) && project == old(project) && requirements == old(requirements)
      ensures State() == Requirements.SetName(old(State()), name)
    {
      this.name := Some(name);
      r := this;
    }

    method SetProject(project: string) returns (r: RequirementsDocumentBuilder)
      modifies this
      ensures r == this
      ensures this.project == Some(project)
      ensures author == old(author) && name == old(name) && requirements == old(requirements)
      ensures State() == Requirements.SetProject(old(State()), project)
    {
      this.project := Some(project);
      r := this;
    }

    method SetRequirements(requirements: seq<Requirements.RequirementDescription>) returns (r: RequirementsDocumentBuilder)
      modifies this
      ensures r == this
      ensures this.requirements == Some(requirements)
      ensures author == old(author) && name == old(name) && project == old(project)
      ensures State() == Requirements.SetRequirements(old(State()), requirements)
    {
      this.requirements := Some(requirements);
      r := this;
    }

    /** `build`: a new document holding this builder's fields; the builder is only read. */
    function Build(): (d: Requirements.RequirementsDocument)
      reads this
      ensures d.author == author && d.name == name && d.project == project && d.requirements == requirements
    {
      Requirements.Build(State())
    }

    /** One call of a fluent setter. */
    method Call(s: Requirements.Setter) returns (r: RequirementsDocumentBuilder)
      modifies this
      ensures r == this
      ensures State() == Requirements.Apply(old(State()), s)
    {
      match s
      case Author(a) => r := SetAuthor(a);
      case Name(n) => r := SetName(n);
      case Project(p) => r := SetProject(p);
      case Requirements(rs) => r := SetRequirements(rs);
    }

    /**
     A chain `b.set…(…).set…(…)…`: each setter is called on what the previous
     one returned, which is always this builder.
     */
    method CallChain(setters: seq<Requirements.Setter>) returns (r: RequirementsDocumentBuilder)
      modifies this
      ensures r == this
      ensures State() == Requirements.Chain(old(State()), setters)
    {
      r := this;
      var i := 0;
      while i < |setters|
        invariant 0 <= i <= |setters|
        invariant r == this
        invariant Requirements.Chain(State(), setters[i..]) == Requirements.Chain(old(State()), setters)
      {
        assert setters[i..][1..] == setters[i + 1..];
        r := r.Call(setters[i]);
        i := i + 1;
      }
    }
  }

  /** The builder class's static part. */
  class BuilderClass {
    /** `static instance`: set once when the class loads and never reassigned. */
    const instance: RequirementsDocumentBuilder

    /** Loading the class runs `static instance = new RequirementsDocumentBuilder()`. */
    constructor ()
      ensures fresh(instance)
      ensures instance.State() == Requirements.NewBuilder()
    {
      instance := new RequirementsDocumentBuilder();
    }

    /** `getInstance`: the static instance, whatever the state of the heap. */
    function GetInstance(): (b: RequirementsDocumentBuilder)
      ensures b == instance
    {
      instance
    }
  }

  /**
   Two callers each obtain the builder through `getInstance` and one of them
   sets the author: both hold the same object, the setter returned it, and
   the update is seen through the other reference.
   */
  method SharedInstance(k: BuilderClass, author: string)
    returns (first: RequirementsDocumentBuilder, second: RequirementsDocumentBuilder, returned: RequirementsDocumentBuilder)
    modifies k.instance
    ensures first == second && second == returned && returned == k.GetInstance()
    ensures second.author == Some(author)
    ensures second.name == old(k.instance.name) && second.project == old(k.instance.project)
    ensures second.requirements == old(k.instance.requirements)
  {
    first := k.GetInstance();
    second := k.GetInstance();
    returned := first.SetAuthor(author);
  }

  /**
   A chain of setters called through `getInstance` leaves the one instance
   holding every update of the chain, and the next `getInstance` returns it.
   */
  method ChainThroughInstance(k: BuilderClass, setters: seq<Requirements.Setter>)
    returns (returned: RequirementsDocumentBuilder)
    modifies k.instance
    ensures returned == k.GetInstance()
    ensures k.GetInstance().State() == Requirements.Chain(old(k.instance.State()), setters)
  {
    returned := k.GetInstance().CallChain(setters);
  }

  /**
   Loading the class, then `getInstance().setAuthor("A").setName("N").build()`:
   author and name are set and project and requirements are absent.
   */
  method AuthorNameThroughInstance() returns (d: Requirements.RequirementsDocument)
    ensures d == Requirements.RequirementsDocument(Some("A"), Some("N"), None, None)
  {
    var k := new BuilderClass();
    var b := k.GetInstance();
    b := b.SetAuthor("A");
    b := b.SetName("N");
    d := b.Build();
  }
}

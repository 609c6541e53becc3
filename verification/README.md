# Library entities and requirements-document builder, modelled in Dafny

This project models the in-memory core of two small console programs that
teach object-oriented design.

- **Library console** (`1_solid_exercise.ts`). An entity is either a book
  (name, ISBN) or a user (name, age). Each entity carries a kind tag and a
  one-line description. A manager keeps entities in insertion order, looked up
  by name. `BookManager` and `UserManager` are the same code, so they are
  modelled once as `EntityManager.Manager`. The command loop dispatches menu
  actions to these managers.
- **Document console** (`2_patterns_creational.ts`). A requirements document
  has an author, a name, a project and a list of `{code, description}` rows,
  and each of them may be absent. It is assembled by a fluent builder with a
  single static instance (a singleton). The command loop collects fields,
  keeps its own list of rows, and on "Create" pushes that list into the
  builder and builds.

The entities, the managers, the builder's state and both command loops are
modelled as values and pure functions. The builder object itself, whose
identity matters to the singleton, is a Dafny class:

| file | module | models |
|---|---|---|
| `wrappers.dfy` | `Wrappers` | `Option`, for the source's `T \| undefined` |
| `entities.dfy` | `Entities` | `EntityType`, `Book`/`User`, `getDescription` |
| `manager.dfy` | `EntityManager` | `addEntity`, `getEntity`, `removeEntity`, `getEntities` |
| `entity_cli.dfy` | `EntityCli` | the library console's handlers and command loop |
| `requirements.dfy` | `Requirements` | `RequirementDescription`, `RequirementsDocument`, the builder's fields as a value, its setters and `build` |
| `builder_instance.dfy` | `BuilderInstance` | the builder object, its fluent setters returning `this`, the static instance and `getInstance` |
| `document_cli.dfy` | `DocumentCli` | the document console's handlers and command loop |

Each operation is paired with a partner it is proved against:

- Descriptions are paired with parsers that read the name (and ISBN) back out.
- Removal is paired with an order-preserving filter. The filter is specified by
  multiplicities plus a subsequence relation.
- Lookups are paired with what adds and removals do to them.
- Builder setters are paired with a "last write per field" reference.
- The document loop is paired with the document it must build: the last
  author, name and project entered and every row in order.
- The library loop is paired with lemmas about how it ends. It stops at the
  first "Exit" with one report per action. A run of book additions leaves the
  books listed in entry order. Book actions never touch users, and user
  actions never touch books.

The source's generic `EntityManager` interface is modelled with `Entity` as its
element type: both managers store the base type.

In the source the builder's constructor is private, so the static instance is
the only builder object. `BuilderInstance.BuilderClass` holds that instance in
a `const` field, so `getInstance` returns the same object in every heap state. Each
setter is a method that changes one field of that object and returns `this`.
The document loop `DocumentCli.RunConsole` drives that one shared object, and
it is proved to end in the state the value-level loop `DocumentCli.Run`
describes.

## Model

| member | source | states |
|---|---|---|
| Entities.KindOf | 1_solid_exercise.ts:3-18 | every entity has exactly one kind, and the kind is `book` exactly for books and `user` exactly for users |
| Entities.NewBook | 1_solid_exercise.ts:20-26 | constructing a book tags it `book` and stores name and ISBN unchanged |
| Entities.NewUser | 1_solid_exercise.ts:33-39 | constructing a user tags it `user` and stores name and age unchanged |
| Entities.GetDescription | 1_solid_exercise.ts:28-43 | a book's description starts `Book with name: "` and a user's starts `User with name: "`; both end in a double quote |
| Entities.ParseUserDescription | 1_solid_exercise.ts:41-43 | any string it accepts is exactly the description of the user with the name it returns, whatever the age |
| Entities.UserDescriptionRoundTrip | 1_solid_exercise.ts:41-43 | a user's description holds the literal name, and the name is read back from it unchanged |
| Entities.UserDescriptionEmbeds | 1_solid_exercise.ts:41-43 | for every name and age, the description is the prefix, the literal name and a closing quote |
| Entities.UserDescriptionIgnoresAge | 1_solid_exercise.ts:41-43 | two users with the same name have the same description whatever their ages |
| Entities.ParseBookDescription | 1_solid_exercise.ts:28-30 | any string it accepts is exactly the description of the book with the name and ISBN it returns, and that name holds no double quote |
| Entities.BookDescriptionRoundTrip | 1_solid_exercise.ts:28-30 | when the name holds no double quote, the name and ISBN are read back from the description unchanged |
| Entities.BookDescriptionEmbeds | 1_solid_exercise.ts:28-30 | for every name and ISBN, quotes included, the description is the prefix, the literal name, the infix, the literal ISBN and a closing quote, at those positions |
| Entities.BookDescriptionInjective | 1_solid_exercise.ts:28-30 | books whose names hold no double quote share a description only if name and ISBN are equal |
| Entities.BookDescriptionAmbiguous | 1_solid_exercise.ts:28-30 | two different books, whose names contain double quotes, have the same description |
| Entities.KindsDescribedApart | 1_solid_exercise.ts:28-43 | a book and a user never have the same description |
| EntityManager.NewManager | 1_solid_exercise.ts:53-58 | a new manager holds no entities |
| EntityManager.FirstIndex | 1_solid_exercise.ts:73-75 | `find` stops at an entity with the name and none before it has that name; it finds nothing only when no entity has the name |
| EntityManager.GetEntity | 1_solid_exercise.ts:73-75 | absent exactly when no stored entity has the name; otherwise a stored entity with that name that no earlier entity's name matches |
| EntityManager.AddEntity | 1_solid_exercise.ts:60-63 | returns the argument; the sequence grows by one, the earlier entities are unchanged, and the new entity is last |
| EntityManager.Without | 1_solid_exercise.ts:68 | no entity with the name survives the filter |
| EntityManager.WithoutKeepsOthers | 1_solid_exercise.ts:68 | the filter keeps every entity with a different name exactly as often as it occurs |
| EntityManager.WithoutKeepsOrder | 1_solid_exercise.ts:68 | the filter's result is a subsequence of the original: kept entities stay in their original relative order |
| EntityManager.RemoveEntity | 1_solid_exercise.ts:65-71 | returns what `getEntity` returns; the remaining entities are the order-preserving filter of all with the name; an absent name changes nothing; afterwards `getEntity` of the name is absent |
| EntityManager.WithoutAbsent | 1_solid_exercise.ts:65-71 | filtering a name that no entity has leaves the sequence as it was |
| EntityManager.WithoutAppend | 1_solid_exercise.ts:68 | the filter of a concatenation is the concatenation of the filters |
| EntityManager.GetAfterAdd | 1_solid_exercise.ts:60-75 | after an add, lookup still finds the earlier first match; the new entity is found only when nothing earlier has its name |
| EntityManager.GetAfterRemoveOther | 1_solid_exercise.ts:65-75 | removing one name leaves the lookup of every other name unchanged |
| EntityManager.RemoveTwice | 1_solid_exercise.ts:65-71 | a second removal of the same name returns absent and changes nothing |
| EntityManager.AddAllAppends | 1_solid_exercise.ts:60-79 | after a run of adds, `getEntities` is the old sequence followed by the added entities in call order |
| EntityManager.AddsCounted | 1_solid_exercise.ts:53-79 | k adds to a new manager leave exactly k entities |
| EntityCli.GetHandler | 1_solid_exercise.ts:124-140 | reports the description of the entity `getEntity` finds, and "not found" exactly when it finds none |
| EntityCli.RemoveHandler | 1_solid_exercise.ts:142-158 | reports the description of the removed entity, "not found" exactly when none has the name, and leaves the manager as `removeEntity` does |
| EntityCli.Step | 1_solid_exercise.ts:210-243 | each action goes to its handler on the right manager: add appends the new entity and reports its description; list reports the manager's entities and changes nothing; get reports what the get handler reports; remove leaves the manager as `removeEntity` does and reports what the remove handler reports; book actions leave the user manager alone and user actions leave the book manager alone |
| EntityCli.ExitIndex | 1_solid_exercise.ts:244-245 | the position of the first "Exit": no earlier action is "Exit" |
| EntityCli.Run | 1_solid_exercise.ts:200-247 | the loop yields exactly one report per action before the first "Exit" |
| EntityCli.RunStopsAtExit | 1_solid_exercise.ts:200-247 | the loop handles nothing after the first "Exit" and yields one report per action before it |
| EntityCli.BookActionsKeepUsers | 1_solid_exercise.ts:210-226 | any run of book actions leaves the user manager unchanged |
| EntityCli.UserActionsKeepBooks | 1_solid_exercise.ts:228-243 | any run of user actions leaves the book manager unchanged |
| EntityCli.RunCons | 1_solid_exercise.ts:210-243 | a run starting with an action other than "Exit" is that action's handler, followed by the run of the remaining actions from the state the handler leaves |
| EntityCli.RunAppend | 1_solid_exercise.ts:200-247 | running two action lists one after the other, the first without "Exit", is the same as running them joined: the second starts from the catalog the first leaves, and the reports are concatenated |
| EntityCli.RunAddsBooks | 1_solid_exercise.ts:211-214 | a run of add-book actions ends with the earlier books followed by the new books in entry order, one report each, and the user manager unchanged |
| EntityCli.AddListRemoveScenario | 1_solid_exercise.ts:120-178 | add a book, list, remove it by name, list: one-row table, removal of that book, then an empty table |
| Requirements.NewBuilder | 2_patterns_creational.ts:24-32 | a new builder has all four fields absent |
| Requirements.SetAuthor | 2_patterns_creational.ts:38-41 | sets the author to the argument and leaves name, project and requirements unchanged |
| Requirements.SetName | 2_patterns_creational.ts:43-46 | sets the name to the argument and leaves author, project and requirements unchanged |
| Requirements.SetProject | 2_patterns_creational.ts:48-51 | sets the project to the argument and leaves author, name and requirements unchanged |
| Requirements.SetRequirements | 2_patterns_creational.ts:53-56 | sets the requirements to the argument and leaves author, name and project unchanged |
| Requirements.Build | 2_patterns_creational.ts:58-65 | the document's four fields equal the builder's current four fields |
| Requirements.ChainBuild | 2_patterns_creational.ts:38-65 | after any chain of setters, each built field is the value of the last setter for that field, or the earlier value if the chain never sets it |
| Requirements.LastWriteWins | 2_patterns_creational.ts:38-56 | calling a setter twice equals calling it once with the second value |
| Requirements.DistinctSettersCommute | 2_patterns_creational.ts:38-56 | setters of different fields give the same builder in either order |
| Requirements.AuthorNameScenario | 2_patterns_creational.ts:38-65 | `setAuthor("A").setName("N")` then `build` gives author A, name N, and absent project and requirements |
| BuilderInstance.RequirementsDocumentBuilder.SetAuthor | 2_patterns_creational.ts:38-41 | changes only this object's author, to the argument, and returns this object |
| BuilderInstance.RequirementsDocumentBuilder.SetName | 2_patterns_creational.ts:43-46 | changes only this object's name, to the argument, and returns this object |
| BuilderInstance.RequirementsDocumentBuilder.SetProject | 2_patterns_creational.ts:48-51 | changes only this object's project, to the argument, and returns this object |
| BuilderInstance.RequirementsDocumentBuilder.SetRequirements | 2_patterns_creational.ts:53-56 | changes only this object's requirements, to the argument, and returns this object |
| BuilderInstance.RequirementsDocumentBuilder.Build | 2_patterns_creational.ts:58-65 | only reads the object; the document's four fields equal the object's current four fields |
| BuilderInstance.RequirementsDocumentBuilder.CallChain | 2_patterns_creational.ts:38-56 | a chain of setters returns this object and leaves it holding the chain's updates in order |
| BuilderInstance.BuilderClass.GetInstance | 2_patterns_creational.ts:29-36 | always the one static instance, held in a `const` field that nothing reassigns, so every call in every heap state returns the same object |
| BuilderInstance.SharedInstance | 2_patterns_creational.ts:29-41 | two `getInstance` callers hold the same object, and an author set through one is seen through the other |
| BuilderInstance.ChainThroughInstance | 2_patterns_creational.ts:34-56 | a chain of setters through `getInstance` leaves the instance holding every update, and later `getInstance` calls return it |
| BuilderInstance.AuthorNameThroughInstance | 2_patterns_creational.ts:29-65 | on a freshly loaded class, `getInstance().setAuthor("A").setName("N").build()` gives author A, name N, and absent project and requirements |
| DocumentCli.NewSession | 2_patterns_creational.ts:77-80 | the console starts with the given builder and an empty list of rows |
| DocumentCli.AddRequirement | 2_patterns_creational.ts:127-148 | "Add Requirements" appends one `{code, description}` row at the end of the console's list and leaves the builder unchanged |
| DocumentCli.CreateDocument | 2_patterns_creational.ts:82-86 | "Create" sets the builder's requirements to the whole list, and the document carries that list with the author, name and project set so far |
| DocumentCli.Step | 2_patterns_creational.ts:161-177 | "Add Author", "Add Name" and "Add Project" set that builder field and leave the list unchanged; "Add Requirements" only appends a row |
| DocumentCli.Run | 2_patterns_creational.ts:151-186 | the loop yields a document exactly when "Create" comes before "Exit", and that document is the build of the final builder, whose requirements are the loop's whole list |
| DocumentCli.RunConsole | 2_patterns_creational.ts:77-186 | run against the one shared builder object, the loop leaves that object in the state, and returns the document, the value-level loop describes |
| DocumentCli.RunBuildsEntered | 2_patterns_creational.ts:151-186 | when "Create" comes before "Exit", the document holds the last author, name and project entered (or the builder's earlier ones), and every row entered before "Create" in order |
| DocumentCli.ExitWithoutDocument | 2_patterns_creational.ts:183-184 | a session that reaches "Exit" before "Create" builds no document |
| DocumentCli.FullDocumentScenario | 2_patterns_creational.ts:151-186 | author Ann, name Spec, project X, row R1/desc, then "Create" gives exactly that document |

## Left out

- Prompts, console output, `console.table` and `RequirementsDocument.print` are interactive I/O. The typed answers become parameters of the actions, and handlers return a `Report` instead of printing.
- The message texts around descriptions are display only. These are "Added …" and "…removed!" in the library console and the echo lines in the document console.
- `age` is declared `number`, a floating-point double, and arrives from the prompt library as a string. It is modelled as `int`.
- JavaScript array aliasing is not modelled. The console's list, the builder's `requirements` and the document's `requirements` are one array in the source and values here. No observable difference arises, because "Create" ends the loop, so that array is never changed after the build.
- EntityManager.GetEntities returns a value, while `getEntities` hands out the manager's live array. A caller could change that array and so the manager; nothing in the source does.
- The command loops recurse asynchronously in the source. The model is an ordinary recursion over the sequence of chosen actions, and a run ends when the actions run out.
- A JavaScript setter or manager call on a wrong runtime type is not modelled. Such a call would be, for example, `setRequirements(undefined)`.
- EntityManager.GetEntities has no contract of its own. It returns the stored sequence, and its meaning is stated by EntityManager.AddAllAppends and EntityManager.AddsCounted.
- BuilderInstance.BuilderClass: Dafny constructors cannot be private. Here `RequirementsDocumentBuilder` can be constructed anywhere, and `BuilderClass` can be constructed more than once. So the model proves that `getInstance` returns one object per loaded class. It does not prove that only one builder object exists. `DocumentCli.RunConsole` likewise accepts any builder object.
- The builder object's methods have `modifies` clauses and contracts that use `old`, as the object's mutation requires. The value-level functions in `Requirements` state the same per-field properties without them.
- The builder instance is created when the class loads (`static instance = new …`), not lazily on first access. The model follows the code.

/** The record types of the memory graph and the checks their constructors run.
  * Identifiers and timestamps are produced outside the model (random UUIDs and the
  * clock) and are taken as inputs. */
module Models {
  import opened Wrappers
  import opened Enums

  type Id = string
  type Time = int

  /** A Python argument as `_validate_range` sees it: an int or float (bool counts
    * as an int), or anything else. */
  datatype Arg = Number(x: real) | NotNumber

  /** `_validate_range`: the value as a float when `lo <= value <= hi`, ValueError otherwise. */
  function ValidateRange(value: Arg, lo: real, hi: real): (r: Result<real>)
    ensures r.Ok? <==> value.Number? && lo <= value.x <= hi
    ensures r.Ok? ==> r.value == value.x
    ensures r.Err? ==> r.error == ValueError
  {
    if value.NotNumber? then Err(ValueError)
    else if value.x < lo || value.x > hi then Err(ValueError)
    else Ok(value.x)
  }

  /** The characters Python's `str.strip()` removes (those for which `isspace()` holds). */
  predicate IsSpace(c: char) {
    var n := c as int;
    (9 <= n <= 13) || (28 <= n <= 32) || n == 0x85 || n == 0xA0 || n == 0x1680
    || (0x2000 <= n <= 0x200A) || n == 0x2028 || n == 0x2029 || n == 0x202F
    || n == 0x205F || n == 0x3000
  }

  predicate Blank(s: string) {
    forall i :: 0 <= i < |s| ==> IsSpace(s[i])
  }

  /** `_validate_required_str`: None, "" and whitespace-only strings raise ValueError;
    * any other string comes back unchanged. */
  function ValidateRequiredStr(value: Option<string>): (r: Result<string>)
    ensures r.Ok? <==> value.Some? && exists i :: 0 <= i < |value.value| && !IsSpace(value.value[i])
    ensures r.Ok? ==> r.value == value.value
    ensures r.Err? ==> r.error == ValueError
  {
    if value.None? || value.value == "" || Blank(value.value) then Err(ValueError)
    else Ok(value.value)
  }

  predicate Required(value: Option<string>) {
    ValidateRequiredStr(value).Ok?
  }

  datatype Memory = Memory(
    id: Id, content: string, summary: string, created: Time, lastAccessed: Time,
    accessCount: int, confidence: real, permeability: Permeability)

  /** `Memory(...)` with its `__post_init__`: content and summary are required and the
    * confidence must be a number in [0, 1]. */
  function NewMemory(content: Option<string>, summary: Option<string>, id: Id, created: Time,
                     lastAccessed: Time, accessCount: int, confidence: Arg,
                     permeability: Permeability): (r: Result<Memory>)
    ensures r.Ok? <==> Required(content) && Required(summary)
                       && confidence.Number? && 0.0 <= confidence.x <= 1.0
    ensures r.Ok? ==> r.value == Memory(id, content.value, summary.value, created, lastAccessed,
                                        accessCount, confidence.x, permeability)
  {
    var c :- ValidateRequiredStr(content);
    var s :- ValidateRequiredStr(summary);
    var conf :- ValidateRange(confidence, 0.0, 1.0);
    Ok(Memory(id, c, s, created, lastAccessed, accessCount, conf, permeability))
  }

  /** `Memory(content, summary)` with every other field left at its default. */
  function DefaultMemory(content: Option<string>, summary: Option<string>, id: Id, now: Time): (r: Result<Memory>)
    ensures r.Ok? <==> Required(content) && Required(summary)
    ensures r.Ok? ==> r.value.permeability == Open && r.value.confidence == 1.0
                      && r.value.accessCount == 0 && r.value.created == r.value.lastAccessed == now
  {
    NewMemory(content, summary, id, now, now, 0, Number(1.0), Open)
  }

  datatype Concept = Concept(name: string, description: string, id: Id, created: Time)
  datatype Keyword = Keyword(term: string, id: Id, created: Time)
  datatype Topic = Topic(name: string, description: string, id: Id, created: Time)
  /** `kind` is the string value of the entity's EntityType. */
  datatype Entity = Entity(name: string, kind: string, description: string, aliases: seq<string>,
                           id: Id, created: Time)
  /** `kind` and `status` are the string values of ContextType and ContextStatus. */
  datatype Context = Context(name: string, kind: string, description: string, status: string,
                             id: Id, created: Time)

  /** `Concept(...)`: the name is required. */
  function NewConcept(name: Option<string>, description: string, id: Id, created: Time): (r: Result<Concept>)
    ensures r.Ok? <==> Required(name)
    ensures r.Ok? ==> r.value == Concept(name.value, description, id, created)
  {
    var n :- ValidateRequiredStr(name);
    Ok(Concept(n, description, id, created))
  }

  /** `Keyword(...)`: the term is required. */
  function NewKeyword(term: Option<string>, id: Id, created: Time): (r: Result<Keyword>)
    ensures r.Ok? <==> Required(term)
    ensures r.Ok? ==> r.value == Keyword(term.value, id, created)
  {
    var t :- ValidateRequiredStr(term);
    Ok(Keyword(t, id, created))
  }

  /** `Topic(...)`: the name is required. */
  function NewTopic(name: Option<string>, description: string, id: Id, created: Time): (r: Result<Topic>)
    ensures r.Ok? <==> Required(name)
    ensures r.Ok? ==> r.value == Topic(name.value, description, id, created)
  {
    var n :- ValidateRequiredStr(name);
    Ok(Topic(n, description, id, created))
  }

  /** `Entity(...)`: the name is required. */
  function NewEntity(name: Option<string>, kind: string, description: string, aliases: seq<string>,
                     id: Id, created: Time): (r: Result<Entity>)
    ensures r.Ok? <==> Required(name)
    ensures r.Ok? ==> r.value == Entity(name.value, kind, description, aliases, id, created)
  {
    var n :- ValidateRequiredStr(name);
    Ok(Entity(n, kind, description, aliases, id, created))
  }

  /** `kind` is the string value of the source's SourceType. */
  datatype Source = Source(kind: string, reference: string, title: string, reliability: real,
                           id: Id, created: Time)

  /** `Source(...)`: the reference is required and the reliability must be a number in [0, 1]. */
  function NewSource(kind: string, reference: Option<string>, title: string, reliability: Arg,
                     id: Id, created: Time): (r: Result<Source>)
    ensures r.Ok? <==> Required(reference) && reliability.Number? && 0.0 <= reliability.x <= 1.0
    ensures r.Ok? ==> r.value == Source(kind, reference.value, title, reliability.x, id, created)
  {
    var ref :- ValidateRequiredStr(reference);
    var rel :- ValidateRange(reliability, 0.0, 1.0);
    Ok(Source(kind, ref, title, rel, id, created))
  }

  datatype Preference = Preference(category: string, preference: string, strength: real,
                                   observations: int, id: Id, created: Time)

  /** `Preference(...)`: category and preference are required; the strength may be
    * negative (a dislike) and must lie in [-1, 1]. */
  function NewPreference(category: Option<string>, preference: Option<string>, strength: Arg,
                         observations: int, id: Id, created: Time): (r: Result<Preference>)
    ensures r.Ok? <==> Required(category) && Required(preference)
                       && strength.Number? && -1.0 <= strength.x <= 1.0
    ensures r.Ok? ==> r.value == Preference(category.value, preference.value, strength.x,
                                            observations, id, created)
  {
    var c :- ValidateRequiredStr(category);
    var p :- ValidateRequiredStr(preference);
    var s :- ValidateRange(strength, -1.0, 1.0);
    Ok(Preference(c, p, s, observations, id, created))
  }

  /** An isolation boundary. `allowExternal` says whether organic connections may
    * form between its members and memories outside it. */
  datatype Compartment = Compartment(name: string, permeability: Permeability, allowExternal: bool,
                                     description: string, id: Id, created: Time)

  /** `Compartment(name)` with the defaults: OPEN, external connections allowed, no
    * description. The name is not validated. */
  function DefaultCompartment(name: string, id: Id, created: Time): (r: Compartment)
    ensures r.permeability == Open && r.allowExternal
    ensures r.name == name && r.description == "" && r.id == id
  {
    Compartment(name, Open, true, "", id, created)
  }

  /** The validators reject exactly the cases the tests exercise: an empty content,
    * a confidence above 1, a negative preference strength is accepted, and a string
    * given where a number is due is refused. */
  lemma ValidationExamples(id: Id, now: Time)
    ensures NewMemory(Some(""), Some("s"), id, now, now, 0, Number(1.0), Open).Err?
    ensures NewMemory(Some("c"), Some("s"), id, now, now, 0, Number(1.5), Open).Err?
    ensures NewMemory(Some("c"), Some("  \t"), id, now, now, 0, Number(0.5), Open).Err?
    ensures NewPreference(Some("food"), Some("spicy"), Number(-0.5), 1, id, now).Ok?
    ensures NewPreference(Some("food"), Some("spicy"), Number(-1.5), 1, id, now).Err?
    ensures NewSource("url", Some(""), "", Number(0.5), id, now).Err?
    ensures ValidateRange(NotNumber, 0.0, 1.0) == Err(ValueError)
  {
    assert !IsSpace('c') && "c"[0] == 'c';
    assert !IsSpace('s') && "s"[0] == 's';
    assert "spicy"[0] == 's' && "food"[0] == 'f' && !IsSpace('f');
    assert Blank("  \t");
  }
}

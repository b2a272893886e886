/** Which backend serves which model (src/inference/ModelRegistry.cc). */
module ModelRegistries {
  import opened Text

  datatype BackendType = Auto | TensorFlow | TensorRT

  /** A loaded backend object; only its identity matters here. */
  type Backend = nat

  /** `backend` is `None` for an entry whose backend was not built in. */
  datatype Registration = Registration(
    name: string, kind: BackendType, backend: Option<Backend>, priority: int, available: bool)

  datatype Registry = Registry(defaultModel: string, registrations: seq<Registration>)

  function ModelName(registry: Registry, name: string): string {
    if name == "default" then registry.defaultModel else name
  }

  predicate SameEntry(r: Registration, name: string, kind: BackendType) {
    r.name == name && r.kind == kind
  }

  predicate Candidate(r: Registration, name: string, requested: BackendType) {
    r.available && r.name == name && (requested.Auto? || r.kind == requested)
  }

  /** Left to right, replaced only by a strictly higher priority. */
  function Select(rs: seq<Registration>, name: string, requested: BackendType): Option<Registration> {
    if rs == [] then None
    else
      var r := rs[|rs| - 1];
      var before := Select(rs[..|rs| - 1], name, requested);
      if Candidate(r, name, requested) && (before.None? || r.priority > before.value.priority) then Some(r)
      else before
  }

  function Resolve(registry: Registry, name: string, requested: BackendType): Option<Backend> {
    var selected := Select(registry.registrations, ModelName(registry, name), requested);
    if selected.Some? then selected.value.backend else None
  }

  predicate HasModel(registry: Registry, name: string) {
    exists i :: 0 <= i < |registry.registrations|
                && registry.registrations[i].name == ModelName(registry, name)
  }

  predicate HasBackend(registry: Registry, name: string, kind: BackendType) {
    exists i :: 0 <= i < |registry.registrations|
                && SameEntry(registry.registrations[i], ModelName(registry, name), kind)
                && registry.registrations[i].available
  }

  function CountOf(rs: seq<Registration>, p: Registration -> bool): nat {
    if rs == [] then 0
    else CountOf(rs[..|rs| - 1], p) + if p(rs[|rs| - 1]) then 1 else 0
  }

  /** No two entries for the same model and backend, an available entry has a backend, and every
      entry names its backend. */
  ghost predicate WellFormed(registry: Registry) {
    var rs := registry.registrations;
    && (forall i, j :: 0 <= i < j < |rs| ==> !SameEntry(rs[i], rs[j].name, rs[j].kind))
    && (forall i :: 0 <= i < |rs| ==> rs[i].available ==> rs[i].backend.Some?)
  }

  // ---------- what the selection means ----------

  /** `rs[i]` is the choice: a candidate, of the highest priority, and the earliest of those. */
  ghost predicate IsChoice(rs: seq<Registration>, i: int, name: string, requested: BackendType) {
    && 0 <= i < |rs| && Candidate(rs[i], name, requested)
    && (forall j :: 0 <= j < |rs| && Candidate(rs[j], name, requested) ==> rs[j].priority <= rs[i].priority)
    && (forall j :: 0 <= j < i && Candidate(rs[j], name, requested) ==> rs[j].priority < rs[i].priority)
  }

  lemma {:induction false} SelectMeaning(rs: seq<Registration>, name: string, requested: BackendType)
    ensures Select(rs, name, requested).None? <==>
            forall j :: 0 <= j < |rs| ==> !Candidate(rs[j], name, requested)
    ensures forall r :: Select(rs, name, requested) == Some(r) ==>
                          exists i :: IsChoice(rs, i, name, requested) && rs[i] == r
  {
    if rs != [] {
      var front, last := rs[..|rs| - 1], rs[|rs| - 1];
      SelectMeaning(front, name, requested);
      assert forall j :: 0 <= j < |front| ==> front[j] == rs[j];
      var before, now := Select(front, name, requested), Select(rs, name, requested);
      if now != before {
        assert now == Some(last);
        if before.Some? {
          var i :| IsChoice(front, i, name, requested) && front[i] == before.value;
        }
        assert IsChoice(rs, |front|, name, requested);
      } else if now.Some? {
        var i :| IsChoice(front, i, name, requested) && front[i] == now.value;
        assert IsChoice(rs, i, name, requested);
      }
    }
  }

  lemma ChoiceIsUnique(rs: seq<Registration>, i: int, j: int, name: string, requested: BackendType)
    requires IsChoice(rs, i, name, requested) && IsChoice(rs, j, name, requested)
    ensures i == j
  {
  }

  /** An explicit backend is routed strictly: it resolves exactly when it is available, and then to
      that very entry; `auto` resolves exactly when some backend of the model is available. */
  lemma ResolveMeaning(registry: Registry, name: string, requested: BackendType)
    requires WellFormed(registry)
    ensures requested.Auto? ==>
              (Resolve(registry, name, Auto).Some? <==> exists kind :: HasBackend(registry, name, kind))
    ensures !requested.Auto? ==>
              (Resolve(registry, name, requested).Some? <==> HasBackend(registry, name, requested))
    ensures Resolve(registry, name, requested).Some? ==>
              && HasModel(registry, name)
              && exists i :: IsChoice(registry.registrations, i, ModelName(registry, name), requested)
                             && registry.registrations[i].backend == Resolve(registry, name, requested)
  {
    var rs, model := registry.registrations, ModelName(registry, name);
    SelectMeaning(rs, model, requested);
    var selected := Select(rs, model, requested);
    if selected.Some? {
      var i :| IsChoice(rs, i, model, requested) && rs[i] == selected.value;
      assert SameEntry(rs[i], model, rs[i].kind);
      assert HasBackend(registry, name, rs[i].kind);
    } else {
      forall j, kind | 0 <= j < |rs| && SameEntry(rs[j], model, kind) && (requested.Auto? || kind == requested)
        ensures !rs[j].available
      {
        assert !Candidate(rs[j], model, requested);
      }
    }
  }

  // ---------- loading ----------

  function Loaded(r: Registration, ready: bool): Registration {
    if r.backend.Some? then r.(available := ready) else r
  }

  function Initialized(registry: Registry, loads: seq<bool>): Registry
    requires |loads| == |registry.registrations|
  {
    registry.(registrations := seq(|loads|, i requires 0 <= i < |loads| =>
      Loaded(registry.registrations[i], loads[i])))
  }

  lemma InitializedWellFormed(registry: Registry, loads: seq<bool>)
    requires WellFormed(registry) && |loads| == |registry.registrations|
    ensures WellFormed(Initialized(registry, loads))
  {
    var rs, rs' := registry.registrations, Initialized(registry, loads).registrations;
    assert forall i :: 0 <= i < |rs| ==> SameEntry(rs'[i], rs[i].name, rs[i].kind);
  }

  predicate AnyAvailable(registry: Registry, loads: seq<bool>)
    requires |loads| == |registry.registrations|
  {
    exists i :: 0 <= i < |loads| && registry.registrations[i].backend.Some? && loads[i]
  }

  /** After loading, a backend serves a model exactly if an entry for both has a backend object and
      that object loaded; an entry without one keeps what it was. */
  lemma LoadingMeaning(registry: Registry, loads: seq<bool>, name: string, kind: BackendType)
    requires |loads| == |registry.registrations|
    ensures HasBackend(Initialized(registry, loads), name, kind) <==>
            exists i ::
              && 0 <= i < |loads|
              && registry.registrations[i].name == (if name == "default" then registry.defaultModel else name)
              && registry.registrations[i].kind == kind
              && if registry.registrations[i].backend.Some? then loads[i] else registry.registrations[i].available
  {
    var rs, rs' := registry.registrations, Initialized(registry, loads).registrations;
    forall i | 0 <= i < |loads|
      ensures rs'[i].name == rs[i].name && rs'[i].kind == rs[i].kind
      ensures rs'[i].available == if rs[i].backend.Some? then loads[i] else rs[i].available
    {
    }
  }

  /** The count is the number of entries with the property. */
  lemma {:induction false} CountMeaning(rs: seq<Registration>, p: Registration -> bool)
    ensures CountOf(rs, p) == |set i | 0 <= i < |rs| && p(rs[i])|
  {
    var chosen := set i | 0 <= i < |rs| && p(rs[i]);
    if rs == [] {
      assert chosen == {};
    } else {
      CountMeaning(rs[..|rs| - 1], p);
      OneMoreCounted(rs, p);
    }
  }

  lemma OneMoreCounted(rs: seq<Registration>, p: Registration -> bool)
    requires rs != []
    ensures var n := |rs| - 1;
            |set i | 0 <= i < |rs| && p(rs[i])|
            == |set i | 0 <= i < n && p(rs[..n][i])| + if p(rs[n]) then 1 else 0
  {
    var n := |rs| - 1;
    var chosen, before := set i | 0 <= i < |rs| && p(rs[i]), set i | 0 <= i < n && p(rs[..n][i]);
    forall i ensures i in chosen <==> i in before || (i == n && p(rs[n])) {
    }
    if p(rs[n]) {
      assert chosen == before + {n};
    } else {
      assert chosen == before;
    }
  }

  // ---------- the object ----------

  class ModelRegistry {
    var defaultModel: string
    var registrations: seq<Registration>

    function Value(): Registry
      reads this
    {
      Registry(defaultModel, registrations)
    }

    constructor ()
      ensures Value() == Registry("", []) && WellFormed(Value())
    {
      defaultModel, registrations := "", [];
    }

    /** Refuses a second entry for the same model and backend. */
    method Add(name: string, kind: BackendType, backend: Option<Backend>, priority: int) returns (ok: bool)
      requires WellFormed(Value())
      modifies this
      ensures WellFormed(Value())
      ensures ok <==> forall i :: 0 <= i < |old(registrations)| ==> !SameEntry(old(registrations)[i], name, kind)
      ensures registrations == old(registrations)
                               + if ok then [Registration(name, kind, backend, priority, false)] else []
      ensures defaultModel == if ok && old(defaultModel) == "" then name else old(defaultModel)
    {
      for i := 0 to |registrations|
        invariant forall j :: 0 <= j < i ==> !SameEntry(registrations[j], name, kind)
      {
        if SameEntry(registrations[i], name, kind) {
          return false;
        }
      }
      registrations := registrations + [Registration(name, kind, backend, priority, false)];
      if defaultModel == "" {
        defaultModel := name;
      }
      ok := true;
    }

    /** `loads[i]` is the outcome of loading and warming up entry `i`. An entry without a backend
        is passed over. */
    method Initialize(loads: seq<bool>) returns (ok: bool)
      requires WellFormed(Value()) && |loads| == |registrations|
      modifies this
      ensures WellFormed(Value()) && Value() == Initialized(old(Value()), loads)
      ensures ok == AnyAvailable(old(Value()), loads)
    {
      var available := 0;
      for i := 0 to |registrations|
        invariant |registrations| == |old(registrations)| && defaultModel == old(defaultModel)
        invariant forall j :: 0 <= j < i ==> registrations[j] == Loaded(old(registrations)[j], loads[j])
        invariant forall j :: i <= j < |registrations| ==> registrations[j] == old(registrations)[j]
        invariant available > 0 <==> exists j :: 0 <= j < i && registrations[j].backend.Some? && loads[j]
        invariant available >= 0
      {
        ghost var before := registrations;
        if registrations[i].backend.Some? {
          registrations := registrations[i := registrations[i].(available := loads[i])];
          if loads[i] {
            available := available + 1;
          }
        }
        assert forall j :: 0 <= j < i ==> registrations[j] == before[j];
      }
      ok := available != 0;
    }

    method ResolveBackend(modelName: string, requested: BackendType) returns (model: string, backend: Option<Backend>)
      ensures model == ModelName(Value(), modelName)
      ensures backend == Resolve(Value(), modelName, requested)
    {
      model := if modelName == "default" then defaultModel else modelName;
      var selected: Option<Registration> := None;
      for i := 0 to |registrations|
        invariant selected == Select(registrations[..i], model, requested)
      {
        assert registrations[..i + 1][..i] == registrations[..i];
        var r := registrations[i];
        if !r.available || r.name != model {
          continue;
        }
        if requested != Auto && r.kind != requested {
          continue;
        }
        if selected.None? || r.priority > selected.value.priority {
          selected := Some(r);
        }
      }
      assert registrations[..|registrations|] == registrations;
      backend := if selected.Some? then selected.value.backend else None;
    }

    method KnowsModel(modelName: string) returns (found: bool)
      ensures found == HasModel(Value(), modelName)
    {
      var model := if modelName == "default" then defaultModel else modelName;
      for i := 0 to |registrations|
        invariant forall j :: 0 <= j < i ==> registrations[j].name != model
      {
        if registrations[i].name == model {
          return true;
        }
      }
      found := false;
    }

    method KnowsBackend(modelName: string, kind: BackendType) returns (found: bool)
      ensures found == HasBackend(Value(), modelName, kind)
    {
      var model := if modelName == "default" then defaultModel else modelName;
      for i := 0 to |registrations|
        invariant forall j :: 0 <= j < i ==> !(SameEntry(registrations[j], model, kind) && registrations[j].available)
      {
        if SameEntry(registrations[i], model, kind) && registrations[i].available {
          return true;
        }
      }
      found := false;
    }

    /** The number of available backends, and of those that also report healthy. */
    method BackendCounts(healthy: Backend -> bool) returns (available: nat, healthyOnes: nat)
      ensures available == CountOf(registrations, (r: Registration) => r.available)
      ensures healthyOnes == CountOf(registrations, (r: Registration) =>
                               r.available && r.backend.Some? && healthy(r.backend.value))
    {
      var isAvailable := (r: Registration) => r.available;
      var isHealthy := (r: Registration) => r.available && r.backend.Some? && healthy(r.backend.value);
      available, healthyOnes := 0, 0;
      for i := 0 to |registrations|
        invariant available == CountOf(registrations[..i], isAvailable)
        invariant healthyOnes == CountOf(registrations[..i], isHealthy)
      {
        assert registrations[..i + 1][..i] == registrations[..i];
        if isAvailable(registrations[i]) {
          available := available + 1;
        }
        if isHealthy(registrations[i]) {
          healthyOnes := healthyOnes + 1;
        }
      }
      assert registrations[..|registrations|] == registrations;
    }
  }
}

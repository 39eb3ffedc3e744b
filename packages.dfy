/** `packages.js`: the `webact` package system. An object is its own
    properties, in the order a `for … in` loop lists them, over the
    enumerable properties it inherits from its prototype. */
module Packages {
  import opened Wrappers

  /** A property value: `null`, a string, or any other value (a function
      or an object), known by identity and by what the host's string
      conversion makes of it. */
  datatype Value = Null | Text(text: string) | Member(id: nat, display: string)

  type Properties = seq<(string, Value)>

  /** An object: its own properties and those it inherits. */
  datatype Obj = Obj(own: Properties, inherited: Properties)

  function Keys(properties: Properties): (keys: seq<string>)
    ensures |keys| == |properties|
    ensures forall i :: 0 <= i < |properties| ==> keys[i] == properties[i].0
  {
    seq(|properties|, i requires 0 <= i < |properties| => properties[i].0)
  }

  /** No property name is listed twice. */
  predicate Distinct(properties: Properties)
  {
    forall i, j :: 0 <= i < j < |properties| ==> properties[i].0 != properties[j].0
  }

  /** `object[key]` among a property list. */
  function Lookup(properties: Properties, key: string): Option<Value>
  {
    if properties == [] then None
    else if properties[0].0 == key then Some(properties[0].1)
    else Lookup(properties[1..], key)
  }

  /** `object[key] = value`: an existing property changes in place, a new
      one goes at the end. */
  function Assign(properties: Properties, key: string, value: Value): (updated: Properties)
    ensures Lookup(updated, key) == Some(value)
    ensures forall other :: other != key ==> Lookup(updated, other) == Lookup(properties, other)
  {
    if properties == [] then [(key, value)]
    else if properties[0].0 == key then [(key, value)] + properties[1..]
    else [properties[0]] + Assign(properties[1..], key, value)
  }

  /** Assignments made one after the other. */
  function AssignAll(properties: Properties, assignments: Properties): Properties
    decreases |assignments|
  {
    if assignments == [] then properties
    else
      var last := assignments[|assignments| - 1];
      Assign(AssignAll(properties, assignments[..|assignments| - 1]), last.0, last.1)
  }

  /** The names a `for … in` loop over an object visits: its own, then the
      inherited ones it does not shadow. */
  function ForInKeys(obj: Obj): (keys: seq<string>)
    ensures |keys| >= |obj.own| && keys[..|obj.own|] == Keys(obj.own)
    ensures forall i :: |obj.own| <= i < |keys| ==> keys[i] !in Keys(obj.own)
  {
    Keys(obj.own) + Unshadowed(Keys(obj.inherited), Keys(obj.own))
  }

  function Unshadowed(inherited: seq<string>, own: seq<string>): (kept: seq<string>)
    ensures forall i :: 0 <= i < |kept| ==> kept[i] !in own
  {
    if inherited == [] then []
    else
      var rest := Unshadowed(inherited[1..], own);
      if inherited[0] in own then rest else [inherited[0]] + rest
  }

  /** `hasOwnProperty`. */
  predicate HasOwn(obj: Obj, key: string)
  {
    key in Keys(obj.own)
  }

  // *** create

  /** `create`: a fresh object over `proto`, with `initial`'s own
      properties copied in the order the loop visits them. */
  method Create(proto: Properties, initial: Option<Obj>) returns (result: Obj)
    requires initial.Some? ==> Distinct(initial.value.own)
    ensures result.inherited == proto
    ensures initial.None? ==> result.own == []
    ensures initial.Some? ==> result.own == initial.value.own
  {
    result := Obj([], proto);
    if initial.Some? {
      var source := initial.value;
      var keys := ForInKeys(source);
      var ownCount := |source.own|;
      for index := 0 to |keys|
        invariant result.inherited == proto
        invariant result.own == source.own[..if index < ownCount then index else ownCount]
      {
        var name := keys[index];
        if HasOwn(source, name) {
          assert index < ownCount && name == source.own[index].0 by {
            assert keys[..ownCount][index] == keys[index];
          }
          var value := Lookup(source.own, name).value by {
            OwnLookup(source.own, index);
          }
          OwnLookup(source.own, index);
          CopyStep(source.own, index);
          result := result.(own := Assign(result.own, name, value));
        }
      }
    }
  }

  /** Looking up a listed name finds the value listed with it. */
  lemma {:induction false} OwnLookup(properties: Properties, index: int)
    requires Distinct(properties) && 0 <= index < |properties|
    ensures Lookup(properties, properties[index].0) == Some(properties[index].1)
  {
    if index > 0 {
      OwnLookup(properties[1..], index - 1);
    }
  }

  /** Copying the next property of a list with distinct names onto the
      copied prefix extends the prefix. */
  lemma CopyStep(properties: Properties, index: int)
    requires Distinct(properties) && 0 <= index < |properties|
    ensures Assign(properties[..index], properties[index].0, properties[index].1) == properties[..index + 1]
  {
    NotAssigned(properties[..index], properties[index].0, properties[index].1);
    assert properties[..index + 1] == properties[..index] + [properties[index]];
  }

  /** Assigning a name a list does not have appends it. */
  lemma {:induction false} NotAssigned(properties: Properties, key: string, value: Value)
    requires forall i :: 0 <= i < |properties| ==> properties[i].0 != key
    ensures Assign(properties, key, value) == properties + [(key, value)]
  {
    if properties != [] {
      NotAssigned(properties[1..], key, value);
    }
  }

  // *** Package

  /** The prototype of every package: a `null` name and the two
      methods. */
  function PackagePrototype(): Properties
  {
    [("name", Null), ("names", Member(0, "names")), ("exports", Member(1, "exports"))]
  }

  /** `this.name`: the own name, or the prototype's `null`. */
  function NameOf(package: Obj): Value
  {
    var own := Lookup(package.own, "name");
    if own.Some? then own.value
    else
      var inherited := Lookup(package.inherited, "name");
      if inherited.Some? then inherited.value else Null
  }

  /** The names `names` lists: the own ones but `name`, in order. */
  function OwnNames(keys: seq<string>): (names: seq<string>)
    ensures forall n :: n in names <==> n in keys && n != "name"
  {
    if keys == [] then []
    else
      var rest := OwnNames(keys[1..]);
      if keys[0] == "name" then rest else [keys[0]] + rest
  }

  /** `Package.names`: the package's own property names but `name`, in
      the loop's order. */
  method Names(package: Obj) returns (names: seq<string>)
    ensures names == OwnNames(Keys(package.own))
  {
    var keys := ForInKeys(package);
    var ownKeys := Keys(package.own);
    names := [];
    for index := 0 to |keys|
      invariant names == OwnPrefix(ownKeys, if index < |ownKeys| then index else |ownKeys|)
    {
      var name := keys[index];
      if index < |ownKeys| {
        assert name == ownKeys[index] by {
          assert keys[..|ownKeys|][index] == keys[index];
        }
        OwnPrefixStep(ownKeys, index);
      }
      if HasOwn(package, name) && name != "name" {
        names := names + [name];
      }
    }
    OwnPrefixAll(ownKeys);
  }

  /** The names `names` has listed after the first `count` own keys. */
  function OwnPrefix(keys: seq<string>, count: nat): seq<string>
    requires count <= |keys|
    decreases count
  {
    if count == 0 then []
    else OwnPrefix(keys, count - 1) + (if keys[count - 1] == "name" then [] else [keys[count - 1]])
  }

  lemma OwnPrefixStep(keys: seq<string>, index: nat)
    requires index < |keys|
    ensures OwnPrefix(keys, index + 1)
            == OwnPrefix(keys, index) + (if keys[index] == "name" then [] else [keys[index]])
  {
  }

  /** Over all the keys, the prefix form is `OwnNames`. */
  lemma {:induction false} OwnPrefixAll(keys: seq<string>)
    ensures OwnPrefix(keys, |keys|) == OwnNames(keys)
  {
    if keys != [] {
      OwnPrefixShift(keys, |keys|);
      OwnPrefixAll(keys[1..]);
    }
  }

  /** Dropping the first key shifts the prefix form by one. */
  lemma {:induction false} OwnPrefixShift(keys: seq<string>, count: nat)
    requires 1 <= count <= |keys|
    ensures OwnPrefix(keys, count)
            == (if keys[0] == "name" then [] else [keys[0]]) + OwnPrefix(keys[1..], count - 1)
  {
    if count > 1 {
      OwnPrefixShift(keys, count - 1);
    }
  }

  /** `array.join(separator)`. */
  function JoinedBy(parts: seq<string>, separator: string): string
  {
    if parts == [] then ""
    else if |parts| == 1 then parts[0]
    else parts[0] + separator + JoinedBy(parts[1..], separator)
  }

  /** One entry of `exports`: a declaration importing `name` from the
      package called `package`. */
  function Declaration(package: string, name: string): (declaration: string)
    ensures declaration == "var " + name + "=webact." + package + "." + name
  {
    "var " + name + "=webact." + package + "." + name
  }

  /** What `exports` returns for the names of a package called `package`. */
  function Declarations(package: string, names: seq<string>): (declarations: seq<string>)
    ensures |declarations| == |names|
    ensures forall i :: 0 <= i < |names| ==> declarations[i] == Declaration(package, names[i])
  {
    seq(|names|, i requires 0 <= i < |names| => Declaration(package, names[i]))
  }

  /** The text of a name value as string concatenation makes it. */
  function Display(value: Value): string
  {
    match value
    case Null => "null"
    case Text(text) => text
    case Member(_, display) => display
  }

  /** `Package.exports` as a value. */
  function ExportsOf(package: Obj): Result<string, string>
  {
    if NameOf(package) == Null then Failure("Package name not set")
    else Success(JoinedBy(Declarations(Display(NameOf(package)), OwnNames(Keys(package.own))), ";"))
  }

  /** `Package.exports`: one declaration per exported name, joined by
      semicolons, or an error for a package without a name. */
  method Exports(package: Obj) returns (result: Result<string, string>)
    ensures result == ExportsOf(package)
  {
    if NameOf(package) == Null {
      return Failure("Package name not set");
    }
    var names := Names(package);
    var declarations: seq<string> := [];
    var packageName := Display(NameOf(package));
    for index := 0 to |names|
      invariant declarations == Declarations(packageName, names[..index])
    {
      declarations := declarations + [Declaration(packageName, names[index])];
    }
    assert names[..|names|] == names;
    return Success(JoinedBy(declarations, ";"));
  }

  /** A fresh package: `create(Package, {name: name})`. */
  function NewPackage(name: string): Obj
  {
    Obj([("name", Text(name))], PackagePrototype())
  }

  /** A package made by `in_package` and filled by a body that assigns
      distinct names (none of them `name`) exports those names in the
      order the body assigns them. */
  lemma NewPackageExports(name: string, assignments: Properties)
    requires forall i :: 0 <= i < |assignments| ==> assignments[i].0 != "name"
    requires Distinct(assignments)
    ensures ExportsOf(NewPackage(name).(own := AssignAll(NewPackage(name).own, assignments)))
            == Success(JoinedBy(Declarations(name, Keys(assignments)), ";"))
  {
    var named: Properties := [("name", Text(name))];
    assert NewPackage(name).own == named;
    FreshAssignments(named, assignments);
    assert NewPackage(name).(own := AssignAll(named, assignments)) == Obj(named + assignments, PackagePrototype());
    NamedPackage(name, assignments);
  }

  /** The exports of a package whose own properties are its name and then
      other names. */
  lemma NamedPackage(name: string, assignments: Properties)
    requires forall i :: 0 <= i < |assignments| ==> assignments[i].0 != "name"
    ensures var package := Obj([("name", Text(name))] + assignments, PackagePrototype());
            ExportsOf(package) == Success(JoinedBy(Declarations(name, Keys(assignments)), ";"))
  {
    var own := [("name", Text(name))] + assignments;
    assert Lookup(own, "name") == Some(Text(name));
    assert Keys(own) == ["name"] + Keys(assignments);
    assert OwnNames(Keys(own)) == OwnNames(Keys(assignments)) by {
      assert (["name"] + Keys(assignments))[1..] == Keys(assignments);
    }
    NoNameKeys(Keys(assignments));
  }

  /** Assignments of new, distinct names append them in order. */
  lemma {:induction false} FreshAssignments(properties: Properties, assignments: Properties)
    requires Distinct(assignments)
    requires forall i, j :: 0 <= i < |properties| && 0 <= j < |assignments| ==> properties[i].0 != assignments[j].0
    ensures AssignAll(properties, assignments) == properties + assignments
  {
    if assignments != [] {
      var front := assignments[..|assignments| - 1];
      var last := assignments[|assignments| - 1];
      FreshAssignments(properties, front);
      NotAssigned(properties + front, last.0, last.1);
      assert assignments == front + [last];
    }
  }

  /** Keys none of which is `name` are all exported. */
  lemma {:induction false} NoNameKeys(keys: seq<string>)
    requires forall i :: 0 <= i < |keys| ==> keys[i] != "name"
    ensures OwnNames(keys) == keys
  {
    if keys != [] {
      NoNameKeys(keys[1..]);
    }
  }

  // *** The registry

  /** `webact`: the registered packages by name. */
  class Registry {
    var packages: map<string, Obj>

    constructor()
      ensures packages == map[]
    {
      packages := map[];
    }

    /** `in_package`: the registered package, or a fresh one registered
        under `name`; `body`, when given, stands for the properties the
        package body assigns, in order. Returns the package. */
    method InPackage(name: string, body: Option<Properties>) returns (package: Obj)
      modifies this
      ensures var found := if name in old(packages) then old(packages[name]) else NewPackage(name);
              package == (if body.Some? then found.(own := AssignAll(found.own, body.value)) else found)
      ensures packages == old(packages)[name := package]
    {
      if name in packages {
        package := packages[name];
      } else {
        package := Create(PackagePrototype(), Some(Obj([("name", Text(name))], [])));
        packages := packages[name := package];
      }
      if body.Some? {
        var assignments := body.value;
        ghost var start := package;
        for index := 0 to |assignments|
          invariant package == start.(own := AssignAll(start.own, assignments[..index]))
        {
          assert assignments[..index + 1][..index] == assignments[..index];
          package := package.(own := Assign(package.own, assignments[index].0, assignments[index].1));
        }
        assert assignments[..|assignments|] == assignments;
        packages := packages[name := package];
      }
    }

    /** `imports` as a value: the exports of each named package in
        order, or the error of the first name that fails. */
    function ImportsOf(names: seq<string>): Result<seq<string>, string>
      reads this
      decreases |names|
    {
      if names == [] then Success([])
      else
        var front := ImportsOf(names[..|names| - 1]);
        var last := names[|names| - 1];
        if front.Failure? then front
        else if last !in packages then Failure("Undefined package: " + last)
        else
          var exports := ExportsOf(packages[last]);
          if exports.Failure? then Failure(exports.error) else Success(front.value + [exports.value])
    }

    /** `imports`: the named packages' exports, joined by semicolons. */
    method Imports(names: seq<string>) returns (result: Result<string, string>)
      ensures ImportsOf(names).Failure? ==> result == Failure(ImportsOf(names).error)
      ensures ImportsOf(names).Success? ==> result == Success(JoinedBy(ImportsOf(names).value, ";"))
    {
      var parts: seq<string> := [];
      for index := 0 to |names|
        invariant ImportsOf(names[..index]) == Success(parts)
      {
        var name := names[index];
        assert names[..index + 1][..index] == names[..index];
        if name !in packages {
          ImportsFailureSticks(names, index + 1);
          return Failure("Undefined package: " + name);
        }
        var exports := Exports(packages[name]);
        if exports.Failure? {
          ImportsFailureSticks(names, index + 1);
          return Failure(exports.error);
        }
        parts := parts + [exports.value];
      }
      assert names[..|names|] == names;
      return Success(JoinedBy(parts, ";"));
    }

    /** Once a prefix of the names fails, the whole list fails the same
        way. */
    lemma {:induction false} ImportsFailureSticks(names: seq<string>, count: nat)
      requires count <= |names| && ImportsOf(names[..count]).Failure?
      ensures ImportsOf(names) == ImportsOf(names[..count])
      decreases |names| - count
    {
      if count < |names| {
        assert names[..count + 1][..count] == names[..count];
        ImportsFailureSticks(names, count + 1);
      } else {
        assert names[..count] == names;
      }
    }

    /** `imports` fails exactly when one of the names is not registered
        or its package has no name. */
    lemma {:induction false} ImportsFailure(names: seq<string>)
      ensures ImportsOf(names).Failure? <==>
              exists i :: 0 <= i < |names| && (names[i] !in packages || ExportsOf(packages[names[i]]).Failure?)
      ensures ImportsOf(names).Success? ==> |ImportsOf(names).value| == |names|
    {
      if names != [] {
        var front := names[..|names| - 1];
        ImportsFailure(front);
        assert forall i :: 0 <= i < |front| ==> front[i] == names[i];
      }
    }
  }
}

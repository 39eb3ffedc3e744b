/** `controls.js`: the base control. A control makes ids from its class
    name and a counter per class, keeps its parent and its contained
    controls, and remembers the DOM element it generated. DOM elements are
    opaque handles; what an overriding `generate` returns is a parameter. */
module Controls {
  import opened Wrappers
  import opened NumberTexts
  import opened Geometry

  /** A DOM handle as a control holds it: `null`, `undefined` (what the
      base `generate` returns) or an element. */
  datatype Dom = Null | Undefined | Element(handle: nat)

  /** How a call ends: normally, with an `Error` the source throws, or
      with the host's `TypeError` for a property read on `null`. */
  datatype Outcome = Done | Thrown(message: string) | TypeError

  /** The id made from a class name and its counter: the class name, an
      underscore, then the counter's decimal digits. */
  function GeneratedId(className: string, count: nat): (id: string)
    ensures |id| > |className| + 1 && id[..|className|] == className && id[|className|] == '_'
    ensures forall i :: |className| < i < |id| ==> IsDigit(id[i])
  {
    className + "_" + Decimal(count)
  }

  /** Generated ids never collide: the digits after the last underscore
      give back the counter, and what precedes it the class name. */
  lemma GeneratedIdInjective(class1: string, count1: nat, class2: string, count2: nat)
    requires GeneratedId(class1, count1) == GeneratedId(class2, count2)
    ensures class1 == class2 && count1 == count2
  {
    var id := GeneratedId(class1, count1);
    var digits1, digits2 := Decimal(count1), Decimal(count2);
    TrailingAfterUnderscore(class1, digits1);
    TrailingAfterUnderscore(class2, digits2);
    assert digits1 == id[|id| - |digits1|..] == digits2;
    DecimalInjective(count1, count2);
    assert class1 == id[..|class1|] == class2;
  }

  /** How many digits a string ends with. */
  function TrailingDigits(s: string): (n: nat)
    ensures n <= |s|
  {
    if s == [] || !IsDigit(s[|s| - 1]) then 0 else 1 + TrailingDigits(s[..|s| - 1])
  }

  /** Digits after an underscore are exactly the trailing digits. */
  lemma {:induction false} TrailingAfterUnderscore(prefix: string, digits: string)
    requires forall i :: 0 <= i < |digits| ==> IsDigit(digits[i])
    ensures TrailingDigits(prefix + "_" + digits) == |digits|
  {
    var s := prefix + "_" + digits;
    if digits != [] {
      assert s[..|s| - 1] == prefix + "_" + digits[..|digits| - 1];
      TrailingAfterUnderscore(prefix, digits[..|digits| - 1]);
    }
  }

  /** `id_counters`: the next counter of each class name, shared by all
      controls. */
  class IdCounters {
    var counts: map<string, nat>

    constructor()
      ensures counts == map[]
    {
      counts := map[];
    }
  }

  /** `id_counters[class_name] || 0`. */
  function CountFor(counts: map<string, nat>, className: string): nat
  {
    if className in counts then counts[className] else 0
  }

  /** The id `getId` settles on and the counters after it: the id already
      set, else a non-empty `options.id`, else a new id from the class
      name's counter, which moves on by one. */
  function AssignedId(id: Option<string>, optionId: Option<string>, className: string,
                      counts: map<string, nat>): (r: (string, map<string, nat>))
    ensures r.0 != ""
    ensures r.1 != counts ==> r.1 == counts[className := CountFor(counts, className) + 1]
  {
    if id.Some? && id.value != "" then (id.value, counts)
    else if optionId.Some? && optionId.value != "" then (optionId.value, counts)
    else
      var count := CountFor(counts, className);
      (GeneratedId(className, count), counts[className := count + 1])
  }

  /** Asking again gives the same id and moves no counter. */
  lemma AssignedIdStable(id: Option<string>, optionId: Option<string>, className: string, counts: map<string, nat>)
    ensures var r := AssignedId(id, optionId, className, counts);
            AssignedId(Some(r.0), optionId, className, r.1) == r
  {
  }

  /** Two controls of one class without ids that take a counter id one
      after the other get different ids. */
  lemma SuccessiveIdsDiffer(className: string, counts: map<string, nat>)
    ensures var first := AssignedId(None, None, className, counts);
            var second := AssignedId(None, None, className, first.1);
            first.0 != second.0
  {
    var count := CountFor(counts, className);
    if GeneratedId(className, count) == GeneratedId(className, count + 1) {
      GeneratedIdInjective(className, count, className, count + 1);
    }
  }

  /** What a control's `generate` does, as `create` sees it: the element
      it returns, the contents element it leaves set, and whether it asks
      for the control's id. */
  datatype Generator = Generator(element: Dom, contentsSet: Dom, callsGetId: bool)

  /** The base `generate`: it makes an element with the control's id,
      appends it to the container and returns nothing. */
  const BaseGenerate: Generator := Generator(Undefined, Null, true)

  /** `splice` of the first entry identical to `x`, if there is one. */
  function RemoveFirst<T(==)>(s: seq<T>, x: T): (r: seq<T>)
    ensures x !in s ==> r == s
    ensures x in s ==> |r| == |s| - 1 && multiset(r) + multiset{x} == multiset(s)
  {
    if s == [] then []
    else
      assert s == [s[0]] + s[1..];
      if s[0] == x then s[1..] else [s[0]] + RemoveFirst(s[1..], x)
  }

  /** Adding a control that was not contained and detaching it leaves
      the contents as they were. */
  lemma {:induction false} AddDetachRoundTrip<T>(s: seq<T>, x: T)
    requires x !in s
    ensures RemoveFirst(s + [x], x) == s
  {
    if s != [] {
      assert (s + [x])[1..] == s[1..] + [x];
      AddDetachRoundTrip(s[1..], x);
    }
  }

  /** `isOver`: whether a point lies over an element with the given page
      offset and size, left and top edges included, right and bottom
      excluded. */
  function IsOver(offset: Point, size: Dimensions, x: real, y: real): bool
  {
    x >= offset.x && x < offset.x + size.width && y >= offset.y && y < offset.y + size.height
  }

  /** `makeControl`. */
  class Control {
    /** `options.id`. */
    const optionId: Option<string>
    var className: string
    var id: Option<string>
    var domElement: Dom
    var domContents: Dom
    var parent: Control?
    /** `contents`: `null` until a child is added. */
    var contents: Option<seq<Control>>

    constructor(optionId: Option<string>)
      ensures this.optionId == optionId && className == "Control" && id == None
      ensures domElement == Null && domContents == Null && parent == null && contents == None
    {
      this.optionId := optionId;
      className := "Control";
      id := None;
      domElement := Null;
      domContents := Null;
      parent := null;
      contents := None;
    }

    /** `this.id` is truthy: set and not empty. */
    predicate HasId()
      reads this
    {
      id.Some? && id.value != ""
    }

    /** `getId`: the id already set; else `options.id`; else a new id
        from the class name and its counter, which moves on by one. */
    method GetId(counters: IdCounters) returns (result: string)
      modifies this`id, counters
      ensures result != "" && id == Some(result)
      ensures old(HasId()) ==> result == old(id.value) && counters.counts == old(counters.counts)
      ensures !old(HasId()) && optionId.Some? && optionId.value != "" ==>
                result == optionId.value && counters.counts == old(counters.counts)
      ensures !old(HasId()) && !(optionId.Some? && optionId.value != "") ==>
                var count := CountFor(old(counters.counts), className);
                result == GeneratedId(className, count) && counters.counts == old(counters.counts)[className := count + 1]
      ensures (result, counters.counts) == AssignedId(old(id), optionId, className, old(counters.counts))
    {
      if id.Some? && id.value != "" {
        return id.value;
      }
      if optionId.Some? && optionId.value != "" {
        id := optionId;
        return id.value;
      }
      var count := CountFor(counters.counts, className);
      counters.counts := counters.counts[className := count + 1];
      id := Some(className + "_" + NumberText(count));
      return id.value;
    }

    /** `create`: an error naming the control's id when it was generated
        already; otherwise the element `generate` returns and the contents
        element it leaves set, falling back to the element, with the id
        assigned when `generate` asks for it. The contained controls are
        not created: `generateContents` is called without a receiver, so
        it reads no control's contents. */
    method Create(gen: Generator, counters: IdCounters) returns (outcome: Outcome)
      modifies this, counters
      ensures parent == old(parent) && contents == old(contents) && className == old(className)
      ensures old(domElement) != Null ==>
                && id.Some? && outcome == Thrown("Control already generated: " + id.value)
                && (id.value, counters.counts) == AssignedId(old(id), optionId, className, old(counters.counts))
                && domElement == old(domElement) && domContents == old(domContents)
      ensures old(domElement) == Null ==>
                && outcome == Done && domElement == gen.element
                && domContents == (if gen.contentsSet.Element? then gen.contentsSet else gen.element)
      ensures old(domElement) == Null && gen.callsGetId ==>
                id.Some? && (id.value, counters.counts) == AssignedId(old(id), optionId, className, old(counters.counts))
      ensures old(domElement) == Null && !gen.callsGetId ==>
                id == old(id) && counters.counts == old(counters.counts)
    {
      if domElement != Null {
        var shown := GetId(counters);
        return Thrown("Control already generated: " + shown);
      }
      domContents := Null;
      if gen.callsGetId {
        var _ := GetId(counters);
      }
      domElement := gen.element;
      domContents := gen.contentsSet;
      if !domContents.Element? {
        domContents := domElement;
      }
      return Done;
    }

    /** `remove`: forgets the generated element and contents element, so
        that `create` may run again. */
    method Remove()
      modifies this
      ensures parent == old(parent) && contents == old(contents) && id == old(id) && className == old(className)
      ensures old(domElement).Element? ==> domElement == Null && domContents == Null
      ensures !old(domElement).Element? ==> domElement == old(domElement) && domContents == old(domContents)
    {
      if domElement.Element? {
        domElement := Null;
        domContents := Null;
      }
    }

    /** `add`: an error when the child has a parent; otherwise the child
        is appended to the contents and takes this control as parent, and
        is created in the contents element when this control has been
        generated, which fails when the child was generated already. */
    method Add(child: Control, gen: Generator, counters: IdCounters) returns (outcome: Outcome)
      modifies this, child, counters
      ensures old(child.parent) != null ==>
                && outcome == Thrown("control added twice")
                && unchanged(this) && unchanged(child) && unchanged(counters)
      ensures old(child.parent) == null ==>
                && contents == Some((if old(contents).Some? then old(contents).value else []) + [child])
                && child.parent == this
                && child.contents == (if child == this then contents else old(child.contents))
                && child.className == old(child.className)
      ensures old(child.parent) == null && child != this ==>
                && domElement == old(domElement) && domContents == old(domContents)
                && id == old(id) && parent == old(parent) && className == old(className)
      ensures old(child.parent) == null && !old(domElement).Element? ==>
                && outcome == Done && counters.counts == old(counters.counts)
                && child.domElement == old(child.domElement) && child.domContents == old(child.domContents)
                && child.id == old(child.id)
      ensures old(child.parent) == null && old(domElement).Element? && old(child.domElement) == Null ==>
                && outcome == Done && child.domElement == gen.element
                && child.domContents == (if gen.contentsSet.Element? then gen.contentsSet else gen.element)
                && (gen.callsGetId ==>
                      child.id.Some?
                      && (child.id.value, counters.counts)
                         == AssignedId(old(child.id), child.optionId, child.className, old(counters.counts)))
                && (!gen.callsGetId ==> child.id == old(child.id) && counters.counts == old(counters.counts))
      ensures old(child.parent) == null && old(domElement).Element? && old(child.domElement) != Null ==>
                && child.id.Some? && outcome == Thrown("Control already generated: " + child.id.value)
                && (child.id.value, counters.counts)
                   == AssignedId(old(child.id), child.optionId, child.className, old(counters.counts))
                && child.domElement == old(child.domElement) && child.domContents == old(child.domContents)
    {
      if child.parent != null {
        return Thrown("control added twice");
      }
      var listed := if contents.Some? then contents.value else [];
      contents := Some(listed + [child]);
      child.parent := this;
      if domElement.Element? {
        outcome := child.Create(gen, counters);
      } else {
        outcome := Done;
      }
    }

    /** `detachedFrom` as the base control defines it: no element and no
        parent. */
    method DetachedFrom(from: Control)
      modifies this
      ensures domElement == Null && parent == null
      ensures domContents == old(domContents) && contents == old(contents) && id == old(id)
      ensures className == old(className)
    {
      domElement := Null;
      parent := null;
    }

    /** `detach(child)`: the child's generated element removed, its first
        entry taken out of the contents, and the child left with no
        parent and no element. With no contents at all the loop reads
        `length` of `null`. */
    method DetachChild(child: Control) returns (outcome: Outcome)
      modifies this, child
      ensures child.domContents == (if old(child.domElement).Element? then Null else old(child.domContents))
      ensures child.id == old(child.id) && child.className == old(child.className)
      ensures child != this ==>
                && domElement == old(domElement) && domContents == old(domContents)
                && id == old(id) && parent == old(parent) && className == old(className)
                && child.contents == old(child.contents)
      ensures old(contents).None? ==>
                && outcome == TypeError && contents == old(contents) && child.parent == old(child.parent)
                && child.domElement == (if old(child.domElement).Element? then Null else old(child.domElement))
      ensures old(contents).Some? ==>
                && outcome == Done && child.parent == null && child.domElement == Null
                && contents == Some(RemoveFirst(old(contents).value, child))
    {
      if child.domElement.Element? {
        child.Remove();
      }
      if contents.None? {
        return TypeError;
      }
      var children := contents.value;
      var index := 0;
      while index < |children|
        invariant 0 <= index <= |children| && child !in children[..index]
      {
        if children[index] == child {
          break;
        }
        index := index + 1;
      }
      assert index < |children| ==> children[index] == child;
      if index < |children| {
        FirstAt(children, child, index);
        contents := Some(children[..index] + children[index + 1..]);
      } else {
        assert children[..index] == children;
      }
      child.parent := null;
      child.DetachedFrom(this);
      return Done;
    }

    /** `detach()` with no argument: detaches this control from its
        parent, which it must have. */
    method Detach() returns (outcome: Outcome)
      modifies this, parent
      ensures old(parent) == null ==> outcome == TypeError && unchanged(this)
      ensures old(parent) != null ==>
                && domContents == (if old(domElement).Element? then Null else old(domContents))
                && id == old(id) && className == old(className)
      ensures old(parent) != null && old(parent) != this ==>
                && contents == old(contents)
                && old(parent).domElement == old(parent.domElement) && old(parent).domContents == old(parent.domContents)
                && old(parent).id == old(parent.id) && old(parent).parent == old(parent.parent)
                && old(parent).className == old(parent.className)
      ensures old(parent) != null && old(parent.contents).None? ==>
                && outcome == TypeError && parent == old(parent)
                && domElement == (if old(domElement).Element? then Null else old(domElement))
      ensures old(parent) != null && old(parent.contents).Some? ==>
                && outcome == Done && parent == null && domElement == Null
                && old(parent).contents == Some(RemoveFirst(old(parent.contents).value, this))
    {
      if parent == null {
        return TypeError;
      }
      var from := parent;
      outcome := from.DetachChild(this);
    }
  }

  /** The first entry identical to `x`, found at `index`, is the one
      `RemoveFirst` takes out. */
  lemma {:induction false} FirstAt<T>(s: seq<T>, x: T, index: int)
    requires 0 <= index < |s| && s[index] == x && x !in s[..index]
    ensures RemoveFirst(s, x) == s[..index] + s[index + 1..]
  {
    if index > 0 {
      assert s[1..][..index - 1] == s[..index][1..];
      FirstAt(s[1..], x, index - 1);
      assert s[1..][index - 1 + 1..] == s[index + 1..];
    }
  }

  /** `isOver` is `containsPoint` of the element's box. */
  lemma IsOverContains(offset: Point, size: Dimensions, x: real, y: real)
    ensures IsOver(offset, size, x, y)
            == ContainsPoint(Rectangle(offset.x, offset.y, offset.x + size.width, offset.y + size.height), Point(x, y))
  {
  }
}

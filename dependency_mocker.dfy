/** The annotation-driven dependency resolver (`tad_DependencyMocker`): a
    fluent builder that reads the dependency tags in the doc comments of one
    or more methods of a class and produces one mock per distinct dependency
    name. Reflection is the `Runtime` value it is given; a mock is the pair
    of the mocked type and the methods it stubs. */
module DependencyMocking {
  import opened Wrappers
  import opened Php
  import opened DocTags

  /** The methods to scan: unset, one name, or a list of names. */
  datatype MethodSelection = Unset | One(name: string) | Many(names: seq<string>)

  /** A mock: the mocked class or interface and the methods it stubs. */
  datatype Mock = Mock(className: string, methods: seq<string>)

  /** What `getMocks` returns (an object with one property per dependency)
      and what `getMocksArray` returns (that object cast to an array). */
  datatype Mocks = MockObject(properties: Dict<Mock>) | MockArray(elements: Dict<Mock>) {
    function Pairs(): Dict<Mock> {
      if MockObject? then properties else elements
    }
  }

  const ConstructorName: string := "__construct"

  /** The methods scanned: the constructor when none is set; a single name
      is a one-element list. */
  function ScannedMethods(sel: MethodSelection): (methods: seq<string>)
    ensures sel.Unset? ==> methods == [ConstructorName]
    ensures sel.One? ==> methods == [sel.name]
    ensures sel.Many? ==> methods == sel.names
    ensures methods == [] ==> sel == Many([])
  {
    match sel
    case Unset => [ConstructorName]
    case One(name) => [name]
    case Many(names) => names
  }

  /** The argument check of `forMethods`: a string or an array is kept as
      it is; anything else is refused with code 1. */
  function SelectionOf(v: Value): (r: Result<MethodSelection, Exception>)
    ensures r.Success? <==> v.Str? || v.Arr?
    ensures r.Failure? ==> r.error == InvalidArgumentException(1)
    ensures v.Str? ==> r == Success(One(v.s))
    ensures v.Arr? ==> r == Success(Many(v.items))
  {
    match v
    case Str(s) => Success(One(s))
    case Arr(items) => Success(Many(items))
    case _ => Failure(InvalidArgumentException(1))
  }

  /** The constructor's checks on the class name: a string (else code 1)
      that names an existing class (else code 2). */
  function ValidatedClassName(rt: Runtime, v: Value): (r: Result<string, Exception>)
    ensures r.Success? <==> v.Str? && rt.ClassExists(v.s)
    ensures r.Success? ==> r.value == v.s
    ensures !v.Str? ==> r == Failure(InvalidArgumentException(1))
    ensures v.Str? && !rt.ClassExists(v.s) ==> r == Failure(InvalidArgumentException(2))
  {
    if !v.Str? then Failure(InvalidArgumentException(1))
    else if !rt.ClassExists(v.s) then Failure(InvalidArgumentException(2))
    else Success(v.s)
  }

  /** The dependency names declared by the scanned methods, method after
      method; the reflection of a missing method throws. */
  function CollectNames(rt: Runtime, className: string, methods: seq<string>, tag: string): (r: Result<seq<string>, Exception>)
    requires |tag| > 0
    ensures r.Success? <==> forall m :: m in methods ==> rt.HasMethod(className, m)
    ensures r.Failure? ==> exists m :: m in methods && r.error == MissingMethod(className, m)
    decreases |methods|
  {
    if methods == [] then Success([])
    else
      var front := methods[..|methods| - 1];
      var m := methods[|methods| - 1];
      assert methods == front + [m];
      match CollectNames(rt, className, front, tag)
      case Failure(e) => Failure(e)
      case Success(names) =>
        if !rt.HasMethod(className, m) then Failure(MissingMethod(className, m))
        else Success(names + DocNames(rt.docComments[(className, m)], tag))
  }

  /** The error is the one for the first scanned method that is missing. */
  lemma {:induction false} CollectNamesFirstMissing(rt: Runtime, className: string, methods: seq<string>, tag: string, i: nat)
    requires |tag| > 0
    requires i < |methods| && !rt.HasMethod(className, methods[i])
    requires forall j :: 0 <= j < i ==> rt.HasMethod(className, methods[j])
    ensures CollectNames(rt, className, methods, tag) == Failure(MissingMethod(className, methods[i]))
    decreases |methods|
  {
    var front := methods[..|methods| - 1];
    if i < |methods| - 1 {
      CollectNamesFirstMissing(rt, className, front, tag, i);
    } else {
      assert forall m :: m in front ==> rt.HasMethod(className, m);
    }
  }

  /** Methods whose comments have no tag line contribute no names. */
  lemma {:induction false} CollectNamesWithoutTags(rt: Runtime, className: string, methods: seq<string>, tag: string)
    requires |tag| > 0
    requires forall m :: m in methods ==>
      rt.HasMethod(className, m) && DocNames(rt.docComments[(className, m)], tag) == []
    ensures CollectNames(rt, className, methods, tag) == Success([])
    decreases |methods|
  {
    if methods != [] {
      var front := methods[..|methods| - 1];
      assert forall m :: m in front ==> m in methods;
      CollectNamesWithoutTags(rt, className, front, tag);
      assert methods[|methods| - 1] in methods;
    }
  }

  /** A single scanned method contributes exactly the names of its comment. */
  lemma SingleMethodNames(rt: Runtime, className: string, m: string, notation: Option<string>)
    requires rt.HasMethod(className, m)
    ensures CollectNames(rt, className, [m], Tag(notation)) == Success(DocNames(rt.docComments[(className, m)], Tag(notation)))
  {
    var ms := [m];
    assert ms[..|ms| - 1] == [];
    assert CollectNames(rt, className, [], Tag(notation)) == Success([]);
    var names := DocNames(rt.docComments[(className, m)], Tag(notation));
    assert [] + names == names;
  }

  /** The extra methods registered under exactly this name. */
  function ExtraFor(extra: map<string, seq<string>>, name: string): seq<string> {
    if name in extra then extra[name] else []
  }

  /** For each name, the public methods of that type followed by its extra
      methods; reflecting a name that is no class or interface throws. */
  function ResolveOperations(rt: Runtime, extra: map<string, seq<string>>, names: seq<string>): (r: Result<map<string, seq<string>>, Exception>)
    ensures r.Success? <==> forall n :: n in names ==> rt.IsReflectable(n)
    ensures r.Success? ==> forall n :: n in names <==> n in r.value
    ensures r.Success? ==> forall n :: n in r.value ==> r.value[n] == rt.publicMethods[n] + ExtraFor(extra, n)
    ensures r.Failure? ==> exists n :: n in names && r.error == MissingClass(n)
    decreases |names|
  {
    if names == [] then Success(map[])
    else
      var front := names[..|names| - 1];
      var n := names[|names| - 1];
      assert names == front + [n];
      match ResolveOperations(rt, extra, front)
      case Failure(e) => Failure(e)
      case Success(ops) =>
        if !rt.IsReflectable(n) then Failure(MissingClass(n))
        else Success(ops[n := rt.publicMethods[n] + ExtraFor(extra, n)])
  }

  /** The error is the one for the first name that is no class or interface. */
  lemma {:induction false} ResolveOperationsFirstMissing(rt: Runtime, extra: map<string, seq<string>>, names: seq<string>, i: nat)
    requires i < |names| && !rt.IsReflectable(names[i])
    requires forall j :: 0 <= j < i ==> rt.IsReflectable(names[j])
    ensures ResolveOperations(rt, extra, names) == Failure(MissingClass(names[i]))
    decreases |names|
  {
    var front := names[..|names| - 1];
    if i < |names| - 1 {
      ResolveOperationsFirstMissing(rt, extra, front, i);
    } else {
      assert forall n :: n in front ==> rt.IsReflectable(n);
    }
  }

  /** The mocks object: for each name in order, the property of that name
      is set to a mock of it with its operations, repeats dropped. */
  function BuildMocks(names: seq<string>, ops: map<string, seq<string>>): (reg: Dict<Mock>)
    requires forall n :: n in names ==> n in ops
    ensures reg.Valid()
    ensures reg.keys == Unique(names)
    ensures forall n :: n in reg.entries ==> n in ops && reg.entries[n] == Mock(n, Unique(ops[n]))
    decreases |names|
  {
    if names == [] then EmptyDict()
    else
      var front := names[..|names| - 1];
      var n := names[|names| - 1];
      assert names == front + [n];
      Assign(BuildMocks(front, ops), n, Mock(n, Unique(ops[n])))
  }

  /** A registry as the resolver promises it: keys without repeats, and
      under each key a mock of that type stubbing its public methods and
      then its extra methods, each once. */
  ghost predicate WellFormedRegistry(rt: Runtime, extra: map<string, seq<string>>, reg: Dict<Mock>) {
    && reg.Valid()
    && forall n :: n in reg.entries ==>
         && rt.IsReflectable(n)
         && reg.entries[n] == Mock(n, Unique(rt.publicMethods[n] + ExtraFor(extra, n)))
  }

  /** What `getMocksObjectOrArray` computes from the builder's fields. */
  function Resolve(rt: Runtime, className: string, sel: MethodSelection, notation: Option<string>,
                   extra: map<string, seq<string>>): (r: Result<Dict<Mock>, Exception>)
    ensures r.Success? <==>
      && CollectNames(rt, className, ScannedMethods(sel), Tag(notation)).Success?
      && forall n :: n in CollectNames(rt, className, ScannedMethods(sel), Tag(notation)).value ==> rt.IsReflectable(n)
    ensures r.Success? ==> r.value.keys == Unique(CollectNames(rt, className, ScannedMethods(sel), Tag(notation)).value)
    ensures r.Success? ==> WellFormedRegistry(rt, extra, r.value)
  {
    match CollectNames(rt, className, ScannedMethods(sel), Tag(notation))
    case Failure(e) => Failure(e)
    case Success(names) =>
      match ResolveOperations(rt, extra, names)
      case Failure(e) => Failure(e)
      case Success(ops) => Success(BuildMocks(names, ops))
  }

  /** A mock stubs every public method of its type and every extra method,
      each once, and lists the public methods first, in their order. */
  lemma MockMethodsCover(publicMethods: seq<string>, extra: seq<string>)
    ensures Distinct(Unique(publicMethods + extra))
    ensures forall x :: x in Unique(publicMethods + extra) <==> x in publicMethods || x in extra
    ensures Distinct(publicMethods) ==>
      |publicMethods| <= |Unique(publicMethods + extra)| && Unique(publicMethods + extra)[..|publicMethods|] == publicMethods
  {
    UniquePrefix(publicMethods, extra);
    if Distinct(publicMethods) {
      UniqueOfDistinct(publicMethods);
    }
  }

  /** With no methods set, the resolver behaves as if `forMethods('__construct')` had been called. */
  lemma UnsetScansConstructor(rt: Runtime, className: string, notation: Option<string>, extra: map<string, seq<string>>)
    ensures Resolve(rt, className, Unset, notation, extra) == Resolve(rt, className, One(ConstructorName), notation, extra)
  {
  }

  /** When no scanned comment has a tag line, there are no mocks. */
  lemma NoTagsNoMocks(rt: Runtime, className: string, sel: MethodSelection, notation: Option<string>,
                      extra: map<string, seq<string>>)
    requires forall m :: m in ScannedMethods(sel) ==>
      rt.HasMethod(className, m) && DocNames(rt.docComments[(className, m)], Tag(notation)) == []
    ensures Resolve(rt, className, sel, notation, extra) == Success(EmptyDict())
  {
    CollectNamesWithoutTags(rt, className, ScannedMethods(sel), Tag(notation));
  }

  /** A method whose first tagged line is bare yields the empty name
      first, and reflection of "" fails, so resolving that method throws
      for "" before any mock is built. */
  lemma EmptyNameNotAType(rt: Runtime, className: string, m: string, notation: Option<string>,
                          extra: map<string, seq<string>>)
    requires rt.HasMethod(className, m) && !rt.IsReflectable("")
    requires DocNames(rt.docComments[(className, m)], Tag(notation)) != []
    requires DocNames(rt.docComments[(className, m)], Tag(notation))[0] == ""
    ensures Resolve(rt, className, One(m), notation, extra) == Failure(MissingClass(""))
  {
    SingleMethodNames(rt, className, m, notation);
    ResolveOperationsFirstMissing(rt, extra, DocNames(rt.docComments[(className, m)], Tag(notation)), 0);
  }

  /** Both return shapes, holding the same key-to-mock pairs, or the same error. */
  function Shaped(getObject: bool, res: Result<Dict<Mock>, Exception>): (r: Result<Mocks, Exception>)
    ensures r.Success? <==> res.Success?
    ensures r.Success? ==> r.value.Pairs() == res.value && (r.value.MockObject? <==> getObject)
    ensures r.Failure? ==> r.error == res.error
  {
    match res
    case Failure(e) => Failure(e)
    case Success(reg) => Success(if getObject then MockObject(reg) else MockArray(reg))
  }

  class DependencyMocker {
    var className: string
    var methodName: MethodSelection
    var notation: Option<string>
    var extraMethods: map<string, seq<string>>

    /** The state right after the constructor has stored the checked class name. */
    constructor Init(className: string)
      ensures this.className == className && methodName == Unset
      ensures notation == None && extraMethods == map[]
    {
      this.className := className;
      methodName := Unset;
      notation := None;
      extraMethods := map[];
    }

    /** `new tad_DependencyMocker($className, $methodNameOrArray, $extraMethods, $notation)`:
        the class name is checked, a method argument goes through
        `forMethods`, a notation is stored, and the extra methods are never
        applied. */
    static method New(rt: Runtime, className: Value, methodNameOrArray: Value,
                      extraMethods: Option<map<string, seq<string>>>, notation: Option<string>)
      returns (r: Result<DependencyMocker, Exception>)
      ensures r.Success? <==>
        ValidatedClassName(rt, className).Success? && (methodNameOrArray.Null? || SelectionOf(methodNameOrArray).Success?)
      ensures ValidatedClassName(rt, className).Failure? ==> r == Failure(ValidatedClassName(rt, className).error)
      ensures ValidatedClassName(rt, className).Success? && r.Failure? ==> r.error == InvalidArgumentException(1)
      ensures r.Success? ==> fresh(r.value) && r.value.className == className.s
      ensures r.Success? ==>
        r.value.methodName == (if methodNameOrArray.Null? then Unset else SelectionOf(methodNameOrArray).value)
      ensures r.Success? ==> r.value.notation == notation && r.value.extraMethods == map[]
    {
      var name :- ValidatedClassName(rt, className);
      var mocker := new DependencyMocker.Init(name);
      if !methodNameOrArray.Null? {
        var chained := mocker.ForMethods(methodNameOrArray);
        if chained.Failure? {
          return Failure(chained.error);
        }
      }
      if notation.Some? {
        var _ := mocker.SetNotation(notation);
      }
      r := Success(mocker);
    }

    /** `tad_DependencyMocker::on(...)`: the class name alone is passed on;
        the other arguments are ignored and the defaults apply. */
    static method On(rt: Runtime, className: Value, methodNameOrArray: Value,
                     extraMethods: Option<map<string, seq<string>>>, notation: Option<string>)
      returns (r: Result<DependencyMocker, Exception>)
      ensures r.Success? <==> ValidatedClassName(rt, className).Success?
      ensures r.Failure? ==> r.error == ValidatedClassName(rt, className).error
      ensures r.Success? ==> fresh(r.value) && r.value.className == className.s && r.value.methodName == Unset
      ensures r.Success? ==> r.value.notation == Some(DefaultNotation) && r.value.extraMethods == map[]
    {
      r := New(rt, className, Null, None, Some(DefaultNotation));
    }

    method SetNotation(notation: Option<string>) returns (self: DependencyMocker)
      modifies this`notation
      ensures this.notation == notation && self == this
    {
      this.notation := notation;
      self := this;
    }

    /** Accepts a string or an array and keeps it as it is; anything else
        throws code 1 and changes nothing. */
    method ForMethods(methodNameOrArray: Value) returns (r: Result<DependencyMocker, Exception>)
      modifies this`methodName
      ensures SelectionOf(methodNameOrArray).Success? ==>
        methodName == SelectionOf(methodNameOrArray).value && r == Success(this)
      ensures SelectionOf(methodNameOrArray).Failure? ==>
        methodName == old(methodName) && r == Failure(InvalidArgumentException(1))
    {
      if !methodNameOrArray.Str? && !methodNameOrArray.Arr? {
        return Failure(InvalidArgumentException(1));
      }
      methodName := SelectionOf(methodNameOrArray).value;
      r := Success(this);
    }

    method SetExtraMethods(extraMethods: map<string, seq<string>>) returns (self: DependencyMocker)
      modifies this`extraMethods
      ensures this.extraMethods == extraMethods && self == this
    {
      this.extraMethods := extraMethods;
      self := this;
    }

    /** The mocks as an object with one property per dependency. */
    method GetMocks(rt: Runtime) returns (r: Result<Mocks, Exception>)
      ensures r == Shaped(true, Resolve(rt, className, methodName, notation, extraMethods))
      ensures r.Success? ==> r.value.MockObject? && WellFormedRegistry(rt, extraMethods, r.value.Pairs())
    {
      r := GetMocksObjectOrArray(rt, true);
    }

    /** The same mocks as an array keyed by dependency name. */
    method GetMocksArray(rt: Runtime) returns (r: Result<Mocks, Exception>)
      ensures r == Shaped(false, Resolve(rt, className, methodName, notation, extraMethods))
      ensures r.Success? ==> r.value.MockArray? && WellFormedRegistry(rt, extraMethods, r.value.Pairs())
    {
      r := GetMocksObjectOrArray(rt, false);
    }

    method GetMocksObjectOrArray(rt: Runtime, getObject: bool) returns (r: Result<Mocks, Exception>)
      ensures r == Shaped(getObject, Resolve(rt, className, methodName, notation, extraMethods))
    {
      var tag := Tag(notation);
      var methods := ScannedMethods(methodName);
      var classes :- ScanMethods(rt, className, methods, tag);
      var operations :- ReflectOperations(rt, classes, extraMethods);
      var mocks := CreateMocks(classes, operations);
      r := Success(if getObject then MockObject(mocks) else MockArray(mocks));
    }
  }

  /** The loop over the scanned methods: each comment's names, in order;
      the first missing method throws. */
  method ScanMethods(rt: Runtime, className: string, methods: seq<string>, tag: string)
    returns (r: Result<seq<string>, Exception>)
    requires |tag| > 0
    ensures r == CollectNames(rt, className, methods, tag)
  {
    var classes: seq<string> := [];
    var i := 0;
    while i < |methods|
      invariant 0 <= i <= |methods|
      invariant CollectNames(rt, className, methods[..i], tag) == Success(classes)
    {
      var m := methods[i];
      if !rt.HasMethod(className, m) {
        CollectNamesFirstMissing(rt, className, methods, tag, i);
        return Failure(MissingMethod(className, m));
      }
      var declared := ScanComment(Explode("\n", rt.docComments[(className, m)]), tag);
      classes := classes + declared;
      assert methods[..i + 1][..i] == methods[..i];
      i := i + 1;
    }
    assert methods[..i] == methods;
    r := Success(classes);
  }

  /** The loop over one comment's lines and the names each tag line declares. */
  method ScanComment(lines: seq<string>, tag: string) returns (classes: seq<string>)
    requires |tag| > 0
    ensures classes == LinesNames(lines, tag)
  {
    classes := [];
    var j := 0;
    while j < |lines|
      invariant 0 <= j <= |lines|
      invariant classes == LinesNames(lines[..j], tag)
    {
      classes := AppendEach(classes, LineNames(lines[j], tag));
      LinesNamesStep(lines, tag, j);
      j := j + 1;
    }
    assert lines[..j] == lines;
  }

  /** `foreach ($methodDependencies as $class) { $classes[] = $class; }` */
  method AppendEach(classes: seq<string>, declared: seq<string>) returns (r: seq<string>)
    ensures r == classes + declared
  {
    r := classes;
    var k := 0;
    while k < |declared|
      invariant 0 <= k <= |declared|
      invariant r == classes + declared[..k]
    {
      assert declared[..k + 1] == declared[..k] + [declared[k]];
      r := r + [declared[k]];
      k := k + 1;
    }
    assert declared[..k] == declared;
  }

  lemma LinesNamesStep(lines: seq<string>, tag: string, j: nat)
    requires |tag| > 0 && j < |lines|
    ensures LinesNames(lines[..j + 1], tag) == LinesNames(lines[..j], tag) + LineNames(lines[j], tag)
  {
    assert lines[..j + 1][..j] == lines[..j];
  }

  /** The `array_map` over the names: public methods then extra methods; the
      first name that is no class or interface throws. */
  method ReflectOperations(rt: Runtime, classes: seq<string>, stubsForClasses: map<string, seq<string>>)
    returns (r: Result<map<string, seq<string>>, Exception>)
    ensures r == ResolveOperations(rt, stubsForClasses, classes)
  {
    var operations: map<string, seq<string>> := map[];
    var i := 0;
    while i < |classes|
      invariant 0 <= i <= |classes|
      invariant ResolveOperations(rt, stubsForClasses, classes[..i]) == Success(operations)
    {
      var c := classes[i];
      if !rt.IsReflectable(c) {
        ResolveOperationsFirstMissing(rt, stubsForClasses, classes, i);
        return Failure(MissingClass(c));
      }
      var stubMethods := if c in stubsForClasses then stubsForClasses[c] else [];
      operations := operations[c := rt.publicMethods[c] + stubMethods];
      assert classes[..i + 1][..i] == classes[..i];
      i := i + 1;
    }
    assert classes[..i] == classes;
    r := Success(operations);
  }

  /** The loop that sets one property per name; a repeated name sets its
      own property again. */
  method CreateMocks(classes: seq<string>, operations: map<string, seq<string>>) returns (mocks: Dict<Mock>)
    requires forall n :: n in classes ==> n in operations
    ensures mocks == BuildMocks(classes, operations)
  {
    mocks := EmptyDict();
    var i := 0;
    while i < |classes|
      invariant 0 <= i <= |classes|
      invariant mocks == BuildMocks(classes[..i], operations)
    {
      var c := classes[i];
      mocks := Assign(mocks, c, Mock(c, Unique(operations[c])));
      assert classes[..i + 1][..i] == classes[..i];
      i := i + 1;
    }
    assert classes[..i] == classes;
  }
}

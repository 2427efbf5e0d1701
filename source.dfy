/**
 * The whole generated file of one device (`get_csharp_source`) and the
 * generator that writes it and records released devices (`generate`).
 *
 * Before anything is emitted, every callback name `C` is checked against
 * the function names: a function named `C Callback` would get the same C#
 * name as the event of callback `C`, so generation stops with an error.
 * Otherwise the file is nine fragments in a fixed order.
 */
module Source {
  import opened Wrappers
  import opened DeviceModel
  import opened Declarations
  import opened Methods
  import opened CallbackHandlers

  datatype Fragment =
    | ImportBlock(headerComment: string)
    | ClassBlock(className: string, description: string, deviceIdentifier: nat, displayName: string)
    | FunctionIdBlock(ids: seq<FunctionIdConst>)
    | ConstantBlock(constants: seq<ConstantDecl>)
    | DelegateBlock(delegates: seq<DelegateDecl>)
    | ConstructorBlock(ctor: Constructor)
    | ResponseExpectedBlock(entries: seq<ResponseEntry>)
    | MethodBlock(methods: seq<MethodDecl>)
    | CallbackBlock(handlers: seq<CallbackHandler>)
  {
    /** The fragment's place in the file. */
    function Rank(): nat {
      match this
      case ImportBlock(_) => 0
      case ClassBlock(_, _, _, _) => 1
      case FunctionIdBlock(_) => 2
      case ConstantBlock(_) => 3
      case DelegateBlock(_) => 4
      case ConstructorBlock(_) => 5
      case ResponseExpectedBlock(_) => 6
      case MethodBlock(_) => 7
      case CallbackBlock(_) => 8
    }
  }

  datatype GeneratorError = GeneratorError(message: string)

  const CallbackSuffix: string := " Callback"

  predicate Collides(callbackName: string, functionNames: seq<string>) {
    callbackName + CallbackSuffix in functionNames
  }

  /** The first callback name, in packet order, that collides with a function name. */
  function FirstCollision(callbackNames: seq<string>, functionNames: seq<string>): (r: Option<string>)
    ensures r.None? <==> forall c :: c in callbackNames ==> !Collides(c, functionNames)
    ensures r.Some? ==> r.value in callbackNames && Collides(r.value, functionNames)
  {
    if callbackNames == [] then None
    else if Collides(callbackNames[0], functionNames) then Some(callbackNames[0])
    else
      assert forall c :: c in callbackNames ==> c == callbackNames[0] || c in callbackNames[1..];
      FirstCollision(callbackNames[1..], functionNames)
  }

  /** The collision reported is the first one: no earlier callback name collides. */
  lemma {:induction false} FirstCollisionIsFirst(callbackNames: seq<string>, functionNames: seq<string>, i: nat)
    requires i < |callbackNames| && Collides(callbackNames[i], functionNames)
    requires forall j :: 0 <= j < i ==> !Collides(callbackNames[j], functionNames)
    ensures FirstCollision(callbackNames, functionNames) == Some(callbackNames[i])
  {
    if i > 0 {
      FirstCollisionIsFirst(callbackNames[1..], functionNames, i - 1);
    }
  }

  function CollisionMessage(callbackName: string): string {
    "Generated callback name '" + callbackName + "[ Callback]' collides with function name '"
      + callbackName + CallbackSuffix + "'"
  }

  /** The nine fragments of a device without a name collision, in file order. */
  function Fragments(m: Mapper, d: Device): seq<Fragment> {
    [ImportBlock(m.headerComment),
     ClassBlock(d.className, d.description, d.deviceIdentifier, d.longDisplayName),
     FunctionIdBlock(FunctionIdDecls(m, d)),
     ConstantBlock(ConstantDecls(m, d.constantGroups)),
     DelegateBlock(DelegateDecls(m, d)),
     ConstructorBlock(Constructor(d.className, Registrations(m, d), d.apiVersion)),
     ResponseExpectedBlock(ResponseEntries(m, d)),
     MethodBlock(MethodDecls(m, d)),
     CallbackBlock(CallbackHandlerDecls(m, d))]
  }

  function SourceOf(m: Mapper, d: Device): Result<seq<Fragment>, GeneratorError> {
    match FirstCollision(PacketNames(d.packets, Callback), PacketNames(d.packets, Function))
    case Some(c) => Failure(GeneratorError(CollisionMessage(c)))
    case None => Success(Fragments(m, d))
  }

  /**
   * Generation fails exactly when some callback `C` has a function named
   * `C Callback`, and the error names such a callback; otherwise the file
   * is the nine fragments in their fixed order.
   */
  lemma SourceShape(m: Mapper, d: Device)
    ensures var callbackNames, functionNames := PacketNames(d.packets, Callback), PacketNames(d.packets, Function);
            SourceOf(m, d).Failure? <==> exists c :: c in callbackNames && Collides(c, functionNames)
    ensures SourceOf(m, d).Failure? ==>
              exists c :: c in PacketNames(d.packets, Callback) && Collides(c, PacketNames(d.packets, Function))
                          && SourceOf(m, d).error.message == CollisionMessage(c)
    ensures SourceOf(m, d).Success? ==>
              |SourceOf(m, d).value| == 9 && forall i :: 0 <= i < 9 ==> SourceOf(m, d).value[i].Rank() == i
  {
    var callbackNames, functionNames := PacketNames(d.packets, Callback), PacketNames(d.packets, Function);
    match FirstCollision(callbackNames, functionNames)
    case Some(c) =>
      assert SourceOf(m, d) == Failure(GeneratorError(CollisionMessage(c)));
    case None =>
      assert SourceOf(m, d) == Success(Fragments(m, d));
      FragmentsInOrder(m, d);
  }

  /** The nine fragments come in their fixed order, one of each kind. */
  lemma FragmentsInOrder(m: Mapper, d: Device)
    ensures |Fragments(m, d)| == 9 && forall i :: 0 <= i < 9 ==> Fragments(m, d)[i].Rank() == i
  {
    var fragments := Fragments(m, d);
    assert fragments[0].Rank() == 0 && fragments[1].Rank() == 1 && fragments[2].Rank() == 2;
    assert fragments[3].Rank() == 3 && fragments[4].Rank() == 4 && fragments[5].Rank() == 5;
    assert fragments[6].Rank() == 6 && fragments[7].Rank() == 7 && fragments[8].Rank() == 8;
  }

  /** The collision check, in packet order, before any fragment is emitted. */
  method FindCollision(callbackNames: seq<string>, functionNames: seq<string>) returns (r: Option<string>)
    ensures r == FirstCollision(callbackNames, functionNames)
  {
    for i := 0 to |callbackNames|
      invariant forall j :: 0 <= j < i ==> !Collides(callbackNames[j], functionNames)
    {
      if callbackNames[i] + CallbackSuffix in functionNames {
        FirstCollisionIsFirst(callbackNames, functionNames, i);
        return Some(callbackNames[i]);
      }
    }
    return None;
  }

  /** The nine emitters, in file order. */
  method EmitFragments(m: Mapper, d: Device) returns (source: seq<Fragment>)
    ensures source == Fragments(m, d)
  {
    var ids := EmitFunctionIds(m, d);
    var constants := EmitConstants(m, d);
    var delegates := EmitDelegates(m, d);
    var ctor := EmitConstructor(m, d);
    var entries := EmitResponseExpected(m, d);
    var methods := EmitMethods(m, d);
    var handlers := EmitCallbacks(m, d);
    source := [ImportBlock(m.headerComment),
               ClassBlock(d.className, d.description, d.deviceIdentifier, d.longDisplayName),
               FunctionIdBlock(ids),
               ConstantBlock(constants),
               DelegateBlock(delegates),
               ConstructorBlock(ctor),
               ResponseExpectedBlock(entries),
               MethodBlock(methods),
               CallbackBlock(handlers)];
  }

  /** `get_csharp_source`. */
  method EmitSource(m: Mapper, d: Device) returns (r: Result<seq<Fragment>, GeneratorError>)
    ensures r == SourceOf(m, d)
  {
    var functionNames := PacketNames(d.packets, Function);
    var callbackNames := PacketNames(d.packets, Callback);
    var collision := FindCollision(callbackNames, functionNames);
    if collision.Some? {
      return Failure(GeneratorError(CollisionMessage(collision.value)));
    }
    var source := EmitFragments(m, d);
    return Success(source);
  }

  // ---------------------------------------------------------------------------
  // The generator

  datatype GeneratedFile = GeneratedFile(filename: string, source: seq<Fragment>)

  /** `'{0}.cs'.format(class_name)`. */
  function FileName(d: Device): string {
    d.className + ".cs"
  }

  function GeneratedFileOf(m: Mapper, d: Device): Result<GeneratedFile, GeneratorError> {
    match SourceOf(m, d)
    case Success(source) => Success(GeneratedFile(FileName(d), source))
    case Failure(e) => Failure(e)
  }

  /** The released-file list after generating `d`: its file is added when it is released and generation succeeded. */
  function ReleasedAfter(files: seq<string>, m: Mapper, d: Device): seq<string> {
    if d.released && GeneratedFileOf(m, d).Success? then files + [FileName(d)] else files
  }

  /**
   * A device's file joins the released list exactly when the device is
   * released and its source was generated; nothing already listed is lost
   * or reordered.
   */
  lemma ReleasedIffReleased(files: seq<string>, m: Mapper, d: Device)
    ensures FileName(d) !in files ==>
              (FileName(d) in ReleasedAfter(files, m, d) <==> d.released && SourceOf(m, d).Success?)
    ensures ReleasedAfter(files, m, d)[..|files|] == files
    ensures |ReleasedAfter(files, m, d)| <= |files| + 1
  {
  }

  class CSharpBindingsGenerator {
    /** Files of released devices generated so far, in generation order. */
    var releasedFiles: seq<string>

    constructor ()
      ensures releasedFiles == []
    {
      releasedFiles := [];
    }

    /** `generate(device)`: build the source, then record the file if the device is released. */
    method Generate(m: Mapper, d: Device) returns (r: Result<GeneratedFile, GeneratorError>)
      modifies this
      ensures r == GeneratedFileOf(m, d)
      ensures releasedFiles == ReleasedAfter(old(releasedFiles), m, d)
    {
      var filename := d.className + ".cs";
      var source := EmitSource(m, d);
      if source.Failure? {
        return Failure(source.error);
      }
      r := Success(GeneratedFile(filename, source.value));
      if d.released {
        releasedFiles := releasedFiles + [filename];
      }
    }
  }
}

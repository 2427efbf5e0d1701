/**
 * The declaration fragments of a generated C# class: function-id constants,
 * constant-group constants, callback events (with their legacy aliases),
 * the constructor's callback registrations and the response-expected table.
 *
 * Each fragment is modelled as the sequence of declarations the template
 * emits, each declaration carrying every value substituted into its
 * template; the fixed template text around those values is not modelled.
 */
module Declarations {
  import opened Text
  import opened DeviceModel
  import opened DocFormat
  import opened Prefixes

  // ---------------------------------------------------------------------------
  // Function ids: `public const byte {TYPE}_{NAME} = {id};`, one per packet

  datatype FunctionIdConst = FunctionIdConst(kindName: string, upperName: string, id: nat) {
    /** The C# identifier the constant declares. */
    function Identifier(): string { kindName + "_" + upperName }
  }

  /** `packet.get_type().upper()`. */
  function KindName(kind: PacketKind): string {
    match kind
    case Function => "FUNCTION"
    case Callback => "CALLBACK"
  }

  function IdentifierOf(m: Mapper, p: Packet): string {
    KindName(p.kind) + "_" + m.upperCase(p.name)
  }

  function FunctionIdDecls(m: Mapper, d: Device): (ids: seq<FunctionIdConst>)
    ensures |ids| == |d.packets|
    ensures forall k :: 0 <= k < |ids| ==>
              ids[k].Identifier() == IdentifierOf(m, d.packets[k]) && ids[k].id == d.packets[k].functionId
  {
    seq(|d.packets|, k requires 0 <= k < |d.packets| =>
      FunctionIdConst(KindName(d.packets[k].kind), m.upperCase(d.packets[k].name), d.packets[k].functionId))
  }

  /** `get_csharp_function_id_definitions`: one constant per packet, in packet order. */
  method EmitFunctionIds(m: Mapper, d: Device) returns (ids: seq<FunctionIdConst>)
    ensures ids == FunctionIdDecls(m, d)
  {
    ids := [];
    for i := 0 to |d.packets|
      invariant |ids| == i
      invariant forall k :: 0 <= k < i ==> ids[k] == FunctionIdDecls(m, d)[k]
    {
      var packet := d.packets[i];
      ids := ids + [FunctionIdConst(KindName(packet.kind), m.upperCase(packet.name), packet.functionId)];
    }
  }

  /** The identifiers the function-id fragment declares. */
  function DeclaredIdentifiers(m: Mapper, d: Device): set<string> {
    set p | p in d.packets :: IdentifierOf(m, p)
  }

  lemma FunctionIdsDeclareAll(m: Mapper, d: Device)
    ensures forall k :: 0 <= k < |d.packets| ==> FunctionIdDecls(m, d)[k].Identifier() in DeclaredIdentifiers(m, d)
    ensures forall s :: s in DeclaredIdentifiers(m, d) ==> exists k :: 0 <= k < |d.packets| && FunctionIdDecls(m, d)[k].Identifier() == s
  {
    forall s | s in DeclaredIdentifiers(m, d)
      ensures exists k :: 0 <= k < |d.packets| && FunctionIdDecls(m, d)[k].Identifier() == s
    {
      var p :| p in d.packets && IdentifierOf(m, p) == s;
      var k :| 0 <= k < |d.packets| && d.packets[k] == p;
      assert FunctionIdDecls(m, d)[k].Identifier() == s;
    }
  }

  // ---------------------------------------------------------------------------
  // Constants: `public const {type} {GROUP}_{CONSTANT} = {value};`

  datatype ConstantDecl = ConstantDecl(csType: string, groupName: string, constantName: string, value: string)

  /** Python's `str(value)`. */
  function Str(v: Value): string {
    match v
    case IntValue(i) => IntToString(i)
    case CharValue(c) => [c]
  }

  /** The value as written into C#: quoted for `'char'` groups, `str(value)` otherwise. */
  function ValueText(g: ConstantGroup, c: Constant): string {
    if g.ctype == Char then "'" + Str(c.value) + "'" else Str(c.value)
  }

  function ConstantDeclOf(m: Mapper, g: ConstantGroup, c: Constant): ConstantDecl {
    ConstantDecl(m.csharpType(g.ctype, 1), m.upperCase(g.name), m.upperCase(c.name), ValueText(g, c))
  }

  function GroupDecls(m: Mapper, g: ConstantGroup): (decls: seq<ConstantDecl>)
    ensures |decls| == |g.constants|
  {
    seq(|g.constants|, k requires 0 <= k < |g.constants| => ConstantDeclOf(m, g, g.constants[k]))
  }

  /** The declarations of all groups, group after group. */
  function ConstantDecls(m: Mapper, gs: seq<ConstantGroup>): seq<ConstantDecl> {
    if gs == [] then [] else ConstantDecls(m, gs[..|gs| - 1]) + GroupDecls(m, gs[|gs| - 1])
  }

  /** The number of constants in all groups. */
  function ConstantCount(gs: seq<ConstantGroup>): nat {
    if gs == [] then 0 else ConstantCount(gs[..|gs| - 1]) + |gs[|gs| - 1].constants|
  }

  lemma {:induction false} ConstantCountMonotone(gs: seq<ConstantGroup>, g: nat)
    requires g < |gs|
    ensures ConstantCount(gs[..g]) + |gs[g].constants| <= ConstantCount(gs)
    decreases |gs|
  {
    var last := |gs| - 1;
    assert gs[..last][..g] == gs[..g] by { assert g <= last; }
    if g < last {
      ConstantCountMonotone(gs[..last], g);
    } else {
      assert gs[..g] == gs[..last];
    }
  }

  /**
   * One declaration per (group, constant), in group order and then
   * constant order: constant `c` of group `g` is declaration number
   * `ConstantCount(gs[..g]) + c`.
   */
  lemma {:induction false} ConstantOrder(m: Mapper, gs: seq<ConstantGroup>, g: nat, c: nat)
    requires g < |gs| && c < |gs[g].constants|
    ensures |ConstantDecls(m, gs)| == ConstantCount(gs)
    ensures ConstantCount(gs[..g]) + c < ConstantCount(gs)
    ensures ConstantDecls(m, gs)[ConstantCount(gs[..g]) + c] == ConstantDeclOf(m, gs[g], gs[g].constants[c])
    decreases |gs|
  {
    var last := |gs| - 1;
    var prefix := gs[..last];
    ConstantCountMonotone(gs, g);
    if g < last {
      assert prefix[..g] == gs[..g];
      assert prefix[g] == gs[g];
      ConstantOrder(m, prefix, g, c);
    } else {
      assert gs[..g] == prefix;
      DeclsLength(m, prefix);
    }
  }

  lemma {:induction false} DeclsLength(m: Mapper, gs: seq<ConstantGroup>)
    ensures |ConstantDecls(m, gs)| == ConstantCount(gs)
  {
    if gs != [] {
      DeclsLength(m, gs[..|gs| - 1]);
    }
  }

  /** The inner loop of `get_csharp_constants`: the constants of one group, in order. */
  method EmitGroupConstants(m: Mapper, group: ConstantGroup) returns (decls: seq<ConstantDecl>)
    ensures decls == GroupDecls(m, group)
  {
    ghost var spec := GroupDecls(m, group);
    decls := [];
    for c := 0 to |group.constants|
      invariant decls == spec[..c]
    {
      var constant := group.constants[c];
      var value: string;
      if group.ctype == Char {
        value := "'" + Str(constant.value) + "'";
      } else {
        value := Str(constant.value);
      }
      PrefixExtend(spec, c);
      decls := decls + [ConstantDecl(m.csharpType(group.ctype, 1), m.upperCase(group.name), m.upperCase(constant.name), value)];
    }
    PrefixWhole(spec);
  }

  /** `get_csharp_constants`: the loop over the groups, each group's constants in turn. */
  method EmitConstants(m: Mapper, d: Device) returns (decls: seq<ConstantDecl>)
    ensures decls == ConstantDecls(m, d.constantGroups)
  {
    var gs := d.constantGroups;
    decls := [];
    for g := 0 to |gs|
      invariant decls == ConstantDecls(m, gs[..g])
    {
      var groupDecls := EmitGroupConstants(m, gs[g]);
      decls := decls + groupDecls;
      assert gs[..g + 1][..g] == gs[..g];
    }
    assert gs[..|gs|] == gs;
  }

  /**
   * Values of `'char'` groups are written as C# character literals; values
   * of all other groups are written in decimal and read back as the
   * constant's integer.
   */
  lemma ValueTextRendering(g: ConstantGroup, c: Constant)
    ensures g.ctype == Char && c.value.CharValue? ==> ValueText(g, c) == ['\'', c.value.c, '\'']
    ensures g.ctype != Char && c.value.IntValue? ==> ParseInt(ValueText(g, c)) == c.value.i
  {
    if c.value.IntValue? {
      ParseIntToString(c.value.i);
    }
  }

  /** Distinct integer constants of a group get distinct values in C#. */
  lemma DistinctValuesStayDistinct(g: ConstantGroup, a: Constant, b: Constant)
    requires g.ctype != Char && a.value.IntValue? && b.value.IntValue? && a.value.i != b.value.i
    ensures ValueText(g, a) != ValueText(g, b)
  {
    ValueTextRendering(g, a);
    ValueTextRendering(g, b);
  }

  // ---------------------------------------------------------------------------
  // Callback events: `public event {Name}EventHandler {Name}Callback;` and the
  // delegate type, plus the old event name for devices released before the
  // callback naming changed

  /**
   * Class names that also keep the old callback event names, for programs
   * written against bindings version 2.1.12. The RS232 Bricklet is not in
   * the list: it used the new names from the start.
   */
  const LegacyCallbackDevices: set<string> :=
    LegacyBricks + LegacyBrickletsAToH + LegacyBrickletsIToL + LegacyBrickletsMToV

  const LegacyBricks: set<string> := {
    "BrickDC", "BrickIMU", "BrickIMUV2", "BrickMaster",
    "BrickRED", "BrickServo", "BrickStepper"
  }

  const LegacyBrickletsAToH: set<string> := {
    "BrickletAccelerometer", "BrickletAmbientLight", "BrickletAmbientLightV2", "BrickletAnalogIn",
    "BrickletAnalogInV2", "BrickletAnalogOut", "BrickletAnalogOutV2", "BrickletBarometer",
    "BrickletCAN", "BrickletCO2", "BrickletColor", "BrickletCurrent12",
    "BrickletCurrent25", "BrickletDistanceIR", "BrickletDistanceUS", "BrickletDualButton",
    "BrickletDualRelay", "BrickletDustDetector", "BrickletGPS", "BrickletHallEffect",
    "BrickletHumidity"
  }

  const LegacyBrickletsIToL: set<string> := {
    "BrickletIndustrialAnalogOut", "BrickletIndustrialDigitalIn4", "BrickletIndustrialDigitalOut4", "BrickletIndustrialDual020mA",
    "BrickletIndustrialDualAnalogIn", "BrickletIndustrialQuadRelay", "BrickletIO16", "BrickletIO4",
    "BrickletJoystick", "BrickletLaserRangeFinder", "BrickletLCD16x2", "BrickletLCD20x4",
    "BrickletLEDStrip", "BrickletLine", "BrickletLinearPoti", "BrickletLoadCell"
  }

  const LegacyBrickletsMToV: set<string> := {
    "BrickletMoisture", "BrickletMotionDetector", "BrickletMultiTouch", "BrickletNFCRFID",
    "BrickletOLED128x64", "BrickletOLED64x48", "BrickletPiezoBuzzer", "BrickletPiezoSpeaker",
    "BrickletPTC", "BrickletRealTimeClock", "BrickletRemoteSwitch", "BrickletRGBLED",
    "BrickletRotaryEncoder", "BrickletRotaryPoti", "BrickletSegmentDisplay4x7", "BrickletSolidStateRelay",
    "BrickletSoundIntensity", "BrickletTemperature", "BrickletTemperatureIR", "BrickletThermocouple",
    "BrickletTilt", "BrickletUVLight", "BrickletVoltage", "BrickletVoltageCurrent"
  }

  datatype DelegateDecl = DelegateDecl(name: string, parameters: string, doc: string, sender: string)

  /** Whether the old event name `{Name}` is declared next to `{Name}Callback`. */
  predicate HasLegacyAlias(decl: DelegateDecl) {
    decl.sender in LegacyCallbackDevices
  }

  /** `', ' + parameters` when there are parameters, nothing otherwise. */
  function ParameterSuffix(parameters: string): string {
    if parameters == "" then "" else ", " + parameters
  }

  function DelegateOf(m: Mapper, p: Packet, sender: string): DelegateDecl {
    DelegateDecl(m.camelCase(p.name, 0), ParameterSuffix(m.parameterList(p)), FormattedDoc(m, p), sender)
  }

  function DelegateDecls(m: Mapper, d: Device): (decls: seq<DelegateDecl>)
    ensures |decls| == |Callbacks(d)|
  {
    var cbs := Callbacks(d);
    seq(|cbs|, k requires 0 <= k < |cbs| => DelegateOf(m, cbs[k], d.className))
  }

  /** The declaration of one callback's event and delegate type. */
  method EmitDelegate(m: Mapper, packet: Packet, sender: string) returns (decl: DelegateDecl)
    ensures decl == DelegateOf(m, packet, sender)
  {
    var name := m.camelCase(packet.name, 0);
    var parameter := m.parameterList(packet);
    var doc := FormatDoc(m, packet);
    if parameter != "" {
      parameter := ", " + parameter;
    }
    decl := DelegateDecl(name, parameter, doc, sender);
  }

  /** `get_csharp_delegates`: one event per callback, in callback order. */
  method EmitDelegates(m: Mapper, d: Device) returns (decls: seq<DelegateDecl>)
    ensures decls == DelegateDecls(m, d)
  {
    var cbs := Callbacks(d);
    ghost var spec := DelegateDecls(m, d);
    decls := [];
    for i := 0 to |cbs|
      invariant decls == spec[..i]
    {
      var delegate := EmitDelegate(m, cbs[i], d.className);
      PrefixExtend(spec, i);
      decls := decls + [delegate];
    }
    PrefixWhole(spec);
  }

  /**
   * One event per callback, named after it; the legacy alias is declared
   * for every callback of a listed device and for none of any other device.
   */
  lemma DelegatesPerCallback(m: Mapper, d: Device)
    ensures forall k :: 0 <= k < |Callbacks(d)| ==> DelegateDecls(m, d)[k].name == m.camelCase(Callbacks(d)[k].name, 0)
    ensures forall k :: 0 <= k < |Callbacks(d)| ==>
              (HasLegacyAlias(DelegateDecls(m, d)[k]) <==> d.className in LegacyCallbackDevices)
  {
  }

  lemma RS232NotInBricks() ensures "BrickletRS232" !in LegacyBricks {}
  lemma RS232NotInBrickletsAToH() ensures "BrickletRS232" !in LegacyBrickletsAToH {}
  lemma RS232NotInBrickletsIToL() ensures "BrickletRS232" !in LegacyBrickletsIToL {}
  lemma RS232NotInBrickletsMToV() ensures "BrickletRS232" !in LegacyBrickletsMToV {}

  /** The RS232 Bricklet gets no legacy aliases; the IO-4 Bricklet, for one, does. */
  lemma LegacyListExcludesRS232()
    ensures "BrickletRS232" !in LegacyCallbackDevices
    ensures "BrickletIO4" in LegacyCallbackDevices
  {
    RS232NotInBricks();
    RS232NotInBrickletsAToH();
    RS232NotInBrickletsIToL();
    RS232NotInBrickletsMToV();
    assert "BrickletIO4" in LegacyBrickletsIToL;
  }

  // ---------------------------------------------------------------------------
  // Constructor: `callbackWrappers[CALLBACK_{NAME}] = new CallbackWrapper(On{Name}Callback);`

  datatype Registration = Registration(upperName: string, camelName: string) {
    /** The function-id constant the registration indexes with. */
    function Identifier(): string { "CALLBACK_" + upperName }
  }

  datatype Constructor = Constructor(className: string, registrations: seq<Registration>, apiVersion: ApiVersion)

  function Registrations(m: Mapper, d: Device): (regs: seq<Registration>)
    ensures |regs| == |Callbacks(d)|
  {
    var cbs := Callbacks(d);
    seq(|cbs|, k requires 0 <= k < |cbs| => Registration(m.upperCase(cbs[k].name), m.camelCase(cbs[k].name, 0)))
  }

  /** `get_csharp_constructor`: the API version and one registration per callback, in callback order. */
  method EmitConstructor(m: Mapper, d: Device) returns (c: Constructor)
    ensures c == Constructor(d.className, Registrations(m, d), d.apiVersion)
  {
    var cbs := Callbacks(d);
    var regs: seq<Registration> := [];
    for i := 0 to |cbs|
      invariant |regs| == i
      invariant forall k :: 0 <= k < i ==> regs[k] == Registrations(m, d)[k]
    {
      regs := regs + [Registration(m.upperCase(cbs[i].name), m.camelCase(cbs[i].name, 0))];
    }
    c := Constructor(d.className, regs, d.apiVersion);
  }

  /** Every registration indexes with a function-id constant the class declares. */
  lemma RegistrationDeclared(m: Mapper, d: Device, k: nat)
    requires k < |Callbacks(d)|
    ensures Registrations(m, d)[k].Identifier() in DeclaredIdentifiers(m, d)
  {
    var p := Callbacks(d)[k];
    assert p in d.packets && p.kind == Callback;
    assert Registrations(m, d)[k].Identifier() == IdentifierOf(m, p);
  }

  lemma RegistrationsUseDeclaredIds(m: Mapper, d: Device)
    ensures forall r :: r in Registrations(m, d) ==> r.Identifier() in DeclaredIdentifiers(m, d)
  {
    forall r | r in Registrations(m, d) ensures r.Identifier() in DeclaredIdentifiers(m, d) {
      var k :| 0 <= k < |Registrations(m, d)| && Registrations(m, d)[k] == r;
      RegistrationDeclared(m, d, k);
    }
  }

  // ---------------------------------------------------------------------------
  // Response expected: `responseExpected[{ID}] = ResponseExpectedFlag.{FLAG};`

  datatype ResponseFlag = AlwaysTrue | AlwaysFalse | True | False

  function FlagText(f: ResponseFlag): string {
    match f
    case AlwaysTrue => "ResponseExpectedFlag.ALWAYS_TRUE;"
    case AlwaysFalse => "ResponseExpectedFlag.ALWAYS_FALSE;"
    case True => "ResponseExpectedFlag.TRUE;"
    case False => "ResponseExpectedFlag.FALSE;"
  }

  datatype ResponseEntry = ResponseEntry(identifier: string, flag: ResponseFlag)

  /** `setto` of `get_csharp_response_expected`. */
  function ResponseFlagOf(p: Packet): ResponseFlag {
    if p.kind == Callback then AlwaysFalse
    else if |Outs(p)| > 0 then AlwaysTrue
    else if p.docType in ["ccf", "llf"] then True
    else False
  }

  /**
   * A function that returns values always gets a response; one that
   * returns nothing gets one by default only when its doc type is `ccf`
   * or `llf`; a callback never gets one.
   */
  lemma ResponseFlagRules(p: Packet)
    ensures p.kind == Callback ==> ResponseFlagOf(p) == AlwaysFalse
    ensures p.kind == Function ==> (ResponseFlagOf(p) == AlwaysTrue <==> |Outs(p)| > 0)
    ensures p.kind == Function ==> (ResponseFlagOf(p) == True <==> |Outs(p)| == 0 && p.docType in ["ccf", "llf"])
    ensures p.kind == Function ==> (ResponseFlagOf(p) == False <==> |Outs(p)| == 0 && p.docType !in ["ccf", "llf"])
  {
  }

  function EntryOf(m: Mapper, p: Packet): ResponseEntry {
    ResponseEntry(IdentifierOf(m, p), ResponseFlagOf(p))
  }

  /** One entry per packet of `ps`, in order. */
  function EntriesOf(m: Mapper, ps: seq<Packet>): (entries: seq<ResponseEntry>)
    ensures |entries| == |ps|
    ensures forall k :: 0 <= k < |ps| ==> entries[k] == EntryOf(m, ps[k])
  {
    seq(|ps|, k requires 0 <= k < |ps| => EntryOf(m, ps[k]))
  }

  /** The table: all functions first, then all callbacks. */
  function ResponseEntries(m: Mapper, d: Device): seq<ResponseEntry> {
    EntriesOf(m, Functions(d)) + EntriesOf(m, Callbacks(d))
  }

  /** `get_csharp_response_expected`: a loop over the functions, then one over the callbacks. */
  method EmitResponseExpected(m: Mapper, d: Device) returns (entries: seq<ResponseEntry>)
    ensures entries == ResponseEntries(m, d)
  {
    var fs := Functions(d);
    var cbs := Callbacks(d);
    ghost var functionEntries, callbackEntries := EntriesOf(m, fs), EntriesOf(m, cbs);
    entries := [];
    for i := 0 to |fs|
      invariant entries == functionEntries[..i]
    {
      var packet := fs[i];
      var nameUpper := "FUNCTION_" + m.upperCase(packet.name);
      var setto := False;
      if |Outs(packet)| > 0 {
        setto := AlwaysTrue;
      } else if packet.docType in ["ccf", "llf"] {
        setto := True;
      }
      assert ResponseEntry(nameUpper, setto) == functionEntries[i];
      PrefixExtend(functionEntries, i);
      entries := entries + [ResponseEntry(nameUpper, setto)];
    }
    PrefixWhole(functionEntries);
    for i := 0 to |cbs|
      invariant entries == functionEntries + callbackEntries[..i]
    {
      var nameUpper := "CALLBACK_" + m.upperCase(cbs[i].name);
      assert ResponseEntry(nameUpper, AlwaysFalse) == callbackEntries[i];
      PrefixExtend(callbackEntries, i);
      assert functionEntries + callbackEntries[..i + 1] == (functionEntries + callbackEntries[..i]) + [callbackEntries[i]];
      entries := entries + [ResponseEntry(nameUpper, AlwaysFalse)];
    }
    PrefixWhole(callbackEntries);
  }

  /** Exactly one entry per packet: the table is as long as the packet list. */
  lemma ResponseEntriesCount(m: Mapper, d: Device)
    ensures |ResponseEntries(m, d)| == |d.packets|
  {
    KindsPartition(d.packets);
  }

  lemma EntryOfMember(m: Mapper, ps: seq<Packet>, p: Packet)
    requires p in ps
    ensures EntryOf(m, p) in EntriesOf(m, ps)
  {
    var k :| 0 <= k < |ps| && ps[k] == p;
    assert EntriesOf(m, ps)[k] == EntryOf(m, p);
  }

  lemma EntryFromMember(m: Mapper, ps: seq<Packet>, e: ResponseEntry) returns (p: Packet)
    requires e in EntriesOf(m, ps)
    ensures p in ps && e == EntryOf(m, p)
  {
    var k :| 0 <= k < |ps| && EntriesOf(m, ps)[k] == e;
    p := ps[k];
  }

  /** Every entry sets a function-id constant the class declares. */
  lemma ResponseEntriesUseDeclaredIds(m: Mapper, d: Device)
    ensures forall e :: e in ResponseEntries(m, d) ==> e.identifier in DeclaredIdentifiers(m, d)
  {
    forall e | e in ResponseEntries(m, d) ensures e.identifier in DeclaredIdentifiers(m, d) {
      var p: Packet;
      if e in EntriesOf(m, Functions(d)) {
        p := EntryFromMember(m, Functions(d), e);
      } else {
        p := EntryFromMember(m, Callbacks(d), e);
      }
      assert p in d.packets && e.identifier == IdentifierOf(m, p);
    }
  }

  /** Every packet gets its own entry, carrying the packet's flag. */
  lemma ResponseEntriesCoverPackets(m: Mapper, d: Device)
    ensures forall p :: p in d.packets ==> EntryOf(m, p) in ResponseEntries(m, d)
  {
    KindsPartition(d.packets);
    forall p | p in d.packets ensures EntryOf(m, p) in ResponseEntries(m, d) {
      if p.kind == Function {
        EntryOfMember(m, Functions(d), p);
      } else {
        EntryOfMember(m, Callbacks(d), p);
      }
    }
  }
}

/**
 * The callback handlers of a generated C# class (`get_csharp_callbacks`):
 * for each callback a protected `On{Name}Callback(byte[] response)` that
 * reads every `out` element from the response at its offset and raises the
 * `{Name}Callback` event with those values.
 */
module CallbackHandlers {
  import opened Wrappers
  import opened Text
  import opened DeviceModel
  import opened Layout
  import opened Declarations
  import opened Methods
  import BitPacking
  import opened Prefixes

  /** One `out` element declared as a local and read from `response` at byte offset `pos`. */
  datatype CallbackConv =
    /** `{csType} {name} = LEConverter.{fromMethod}({pos}, response{, count});` */
    | DeclareValue(csType: string, name: string, fromMethod: string, pos: nat, length: Option<nat>)
    /** `bool[{count}] {name}` unpacked LSB first from `byte[{byteCount}] {bitsName}` read at `{pos}`. */
    | DeclareBoolArray(name: string, count: nat, bitsName: string, byteCount: nat, pos: nat)

  /** One handler: the event it raises, the reads and the argument list after `this`. */
  datatype CallbackHandler = CallbackHandler(name: string, convs: seq<CallbackConv>, callParams: string)

  function CallbackConvOf(m: Mapper, e: Element, pos: nat): CallbackConv {
    var cname := m.headlessCamelCase(e.name);
    if IsBoolArray(e) then DeclareBoolArray(cname, e.cardinality, cname + "Bits", CeilDiv8(e.cardinality), pos)
    else DeclareValue(m.csharpType(e.etype, e.cardinality), cname, m.leConverterFromMethod(e.etype, e.cardinality),
                      pos, LengthArg(e))
  }

  function CallbackConvs(m: Mapper, outs: seq<Element>): (convs: seq<CallbackConv>)
    ensures |convs| == |outs|
    ensures forall k :: 0 <= k < |outs| ==> convs[k].pos == Offset(outs, k)
  {
    seq(|outs|, k requires 0 <= k < |outs| => CallbackConvOf(m, outs[k], Offset(outs, k)))
  }

  function ArgumentNames(m: Mapper, outs: seq<Element>): (names: seq<string>)
    ensures |names| == |outs|
  {
    seq(|outs|, k requires 0 <= k < |outs| => m.headlessCamelCase(outs[k].name))
  }

  /** `', ' + ', '.join(names)`, or nothing when there are no `out` elements. */
  function CallParams(m: Mapper, outs: seq<Element>): string {
    ParameterSuffix(Join(ArgumentNames(m, outs), ", "))
  }

  function HandlerOf(m: Mapper, p: Packet): CallbackHandler {
    CallbackHandler(m.camelCase(p.name, 0), CallbackConvs(m, Outs(p)), CallParams(m, Outs(p)))
  }

  function CallbackHandlerDecls(m: Mapper, d: Device): (handlers: seq<CallbackHandler>)
    ensures |handlers| == |Callbacks(d)|
  {
    var cbs := Callbacks(d);
    seq(|cbs|, k requires 0 <= k < |cbs| => HandlerOf(m, cbs[k]))
  }

  /** A bool array is declared, read as bytes and unpacked; any other element is declared with its C# type and read directly, with its count when it is an array. */
  lemma CallbackConvShape(m: Mapper, e: Element, pos: nat)
    ensures var c := CallbackConvOf(m, e, pos); c.pos == pos && c.name == m.headlessCamelCase(e.name)
    ensures CallbackConvOf(m, e, pos).DeclareBoolArray? <==> IsBoolArray(e)
    ensures var c := CallbackConvOf(m, e, pos);
            c.DeclareBoolArray? ==> c.count == e.cardinality && c.byteCount == Size(e) && c.bitsName == c.name + "Bits"
    ensures var c := CallbackConvOf(m, e, pos);
            c.DeclareValue? ==> c.length == LengthArg(e) && c.csType == m.csharpType(e.etype, e.cardinality)
                                && c.fromMethod == m.leConverterFromMethod(e.etype, e.cardinality)
  {
  }

  /** The loop over the `out` elements, advancing `pos` from 8 by each element's size. */
  method EmitCallbackConvs(m: Mapper, outs: seq<Element>) returns (convs: seq<CallbackConv>)
    ensures convs == CallbackConvs(m, outs)
  {
    ghost var spec := CallbackConvs(m, outs);
    convs := [];
    var pos := HeaderSize;
    for i := 0 to |outs|
      invariant pos == Offset(outs, i)
      invariant convs == spec[..i]
    {
      var element := outs[i];
      var csharpType := m.csharpType(element.etype, element.cardinality);
      var cname := m.headlessCamelCase(element.name);
      var fromMethod := m.leConverterFromMethod(element.etype, element.cardinality);
      var length: Option<nat> := None;
      if element.cardinality > 1 && element.etype != Bool {
        length := Some(element.cardinality);
      }
      var conv: CallbackConv;
      if element.cardinality > 1 && element.etype == Bool {
        conv := DeclareBoolArray(cname, element.cardinality, cname + "Bits", CeilDiv8(element.cardinality), pos);
      } else {
        conv := DeclareValue(csharpType, cname, fromMethod, pos, length);
      }
      assert conv == spec[i];
      PrefixExtend(spec, i);
      convs := convs + [conv];
      OffsetStep(outs, i);
      pos := pos + Size(element);
    }
    PrefixWhole(spec);
  }

  /** One handler: the argument names of the `out` elements, then their reads. */
  method EmitHandler(m: Mapper, packet: Packet) returns (handler: CallbackHandler)
    ensures handler == HandlerOf(m, packet)
  {
    var outs := Outs(packet);
    var eles: seq<string> := [];
    for i := 0 to |outs|
      invariant eles == ArgumentNames(m, outs)[..i]
    {
      eles := eles + [m.headlessCamelCase(outs[i].name)];
    }
    assert ArgumentNames(m, outs)[..|outs|] == ArgumentNames(m, outs);
    var callParams := Join(eles, ", ");
    var convs := EmitCallbackConvs(m, outs);
    if callParams != "" {
      callParams := ", " + callParams;
    }
    handler := CallbackHandler(m.camelCase(packet.name, 0), convs, callParams);
  }

  /** `get_csharp_callbacks`: one handler per callback, in callback order. */
  method EmitCallbacks(m: Mapper, d: Device) returns (handlers: seq<CallbackHandler>)
    ensures handlers == CallbackHandlerDecls(m, d)
  {
    var cbs := Callbacks(d);
    handlers := [];
    for i := 0 to |cbs|
      invariant handlers == CallbackHandlerDecls(m, d)[..i]
    {
      var handler := EmitHandler(m, cbs[i]);
      handlers := handlers + [handler];
      assert CallbackHandlerDecls(m, d)[..i + 1] == CallbackHandlerDecls(m, d)[..i] + [handler];
    }
    assert CallbackHandlerDecls(m, d)[..|cbs|] == CallbackHandlerDecls(m, d);
  }

  // ---------------------------------------------------------------------------
  // Properties

  /**
   * The method writes, the method reads and the callback reads all place
   * element `k` of an element list at the same offset, the running sum of
   * the sizes before it from 8; bool arrays take the same byte count in all three.
   */
  lemma OffsetsAgree(m: Mapper, es: seq<Element>, k: nat)
    requires k < |es|
    ensures WriteConvs(m, es)[k].pos == ReadConvs(m, es)[k].pos == CallbackConvs(m, es)[k].pos == Offset(es, k)
    ensures Offset(es, k) == HeaderSize + SumSizes(es[..k])
    ensures IsBoolArray(es[k]) ==>
              WriteConvs(m, es)[k].byteCount == ReadConvs(m, es)[k].byteCount
              == CallbackConvs(m, es)[k].byteCount == Size(es[k])
  {
  }

  /** Each handler read, also the only one of a one-value callback, lies inside the callback's payload. */
  lemma HandlerReadWithinPayload(m: Mapper, p: Packet, k: nat)
    requires k < |Outs(p)|
    ensures var outs, convs := Outs(p), HandlerOf(m, p).convs;
            HeaderSize <= convs[k].pos && convs[k].pos + Size(outs[k]) <= Offset(outs, |outs|)
  {
    InFrame(Outs(p), k);
  }

  /** Handler reads are disjoint, in element order and inside the callback's payload. */
  lemma HandlerReadsWithinPayload(m: Mapper, p: Packet, j: nat, k: nat)
    requires j < k < |Outs(p)|
    ensures var outs, convs := Outs(p), HandlerOf(m, p).convs;
            HeaderSize <= convs[j].pos && convs[j].pos + Size(outs[j]) <= convs[k].pos
            && convs[k].pos + Size(outs[k]) <= Offset(outs, |outs|)
  {
    FieldsDisjointAndInFrame(Outs(p), j, k);
  }

  /**
   * The constructor registers, under each callback's function id, the
   * handler generated for that same callback: registration `k` and handler
   * `k` come from callback `k`.
   */
  lemma RegistrationsTargetHandlers(m: Mapper, d: Device)
    ensures |Registrations(m, d)| == |CallbackHandlerDecls(m, d)| == |DelegateDecls(m, d)|
    ensures forall k :: 0 <= k < |Registrations(m, d)| ==>
              Registrations(m, d)[k].camelName == CallbackHandlerDecls(m, d)[k].name == DelegateDecls(m, d)[k].name
              && Registrations(m, d)[k].Identifier() == IdentifierOf(m, Callbacks(d)[k])
  {
    forall k | 0 <= k < |Registrations(m, d)|
      ensures Registrations(m, d)[k].Identifier() == IdentifierOf(m, Callbacks(d)[k])
    {
      assert Callbacks(d)[k].kind == Callback;
    }
  }
}

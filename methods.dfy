/**
 * The function methods of a generated C# class (`get_csharp_methods`).
 *
 * Each method builds a request of the packet's request size, writes every
 * `in` element at its offset (bool arrays bit-packed first), sends the
 * request and then either returns nothing, returns the single `out` value
 * directly, or assigns every `out` value to its output parameter. Each
 * emitted statement is modelled by the values its template substitutes.
 */
module Methods {
  import opened Wrappers
  import opened DeviceModel
  import opened Layout
  import opened DocFormat
  import BitPacking
  import opened Prefixes

  /** The `, {count}` argument after the offset: present for arrays of anything but bool. */
  function LengthArg(e: Element): (r: Option<nat>)
    ensures r.Some? <==> e.cardinality > 1 && e.etype != Bool
    ensures r.Some? ==> r.value == e.cardinality && r.value > 1
  {
    if e.cardinality > 1 && e.etype != Bool then Some(e.cardinality) else None
  }

  /** `s.replace('[', '').replace(']', '')`: the item type of an array type. */
  function RemoveBrackets(s: string): (r: string)
    ensures |r| <= |s|
    ensures forall i :: 0 <= i < |r| ==> r[i] != '[' && r[i] != ']'
    ensures (forall i :: 0 <= i < |s| ==> s[i] != '[' && s[i] != ']') ==> r == s
  {
    if s == [] then []
    else (if s[0] == '[' || s[0] == ']' then [] else [s[0]]) + RemoveBrackets(s[1..])
  }

  // ---------------------------------------------------------------------------
  // Writing the request

  /** One `in` element written into `request` at byte offset `pos`. */
  datatype WriteConv =
    /** `LEConverter.To(({type}){name}, {pos}, request);` */
    | WriteScalar(name: string, pos: nat, leType: string)
    /** `LEConverter.To(({type}){name}, {pos}, {count}, request);` */
    | WriteArray(name: string, pos: nat, count: nat, leType: string)
    /** Copy into a `{itemType}[] {copyName}` first, then `LEConverter.To({copyName}, {pos}, {count}, request);` */
    | WriteConvertedArray(itemType: string, copyName: string, count: nat, name: string, pos: nat)
    /** Pack `{name}` LSB first into `byte[{byteCount}] {bitsName}`, then write those bytes at `{pos}`. */
    | WriteBoolArray(bitsName: string, byteCount: nat, count: nat, name: string, pos: nat)

  function WriteConvOf(m: Mapper, e: Element, pos: nat): WriteConv {
    var wname := m.headlessCamelCase(e.name);
    var leType := m.leConverterType(e.etype, e.cardinality);
    if e.cardinality > 1 then
      if e.etype == Bool then WriteBoolArray(wname + "Bits", CeilDiv8(e.cardinality), e.cardinality, wname, pos)
      else if leType != m.csharpType(e.etype, e.cardinality) then
        WriteConvertedArray(RemoveBrackets(leType), "_" + wname, e.cardinality, wname, pos)
      else WriteArray(wname, pos, e.cardinality, leType)
    else WriteScalar(wname, pos, leType)
  }

  /** The writes of a request: element `k` at `Offset(ins, k)`. */
  function WriteConvs(m: Mapper, ins: seq<Element>): (writes: seq<WriteConv>)
    ensures |writes| == |ins|
    ensures forall k :: 0 <= k < |ins| ==> writes[k].pos == Offset(ins, k)
  {
    seq(|ins|, k requires 0 <= k < |ins| => WriteConvOf(m, ins[k], Offset(ins, k)))
  }

  /**
   * Scalars are written directly; bool arrays are packed first; other arrays
   * are written with their count, through a copy when the converter's item
   * type differs from the parameter's.
   */
  lemma WriteShape(m: Mapper, e: Element, pos: nat)
    ensures var w := WriteConvOf(m, e, pos); w.pos == pos && w.name == m.headlessCamelCase(e.name)
    ensures WriteConvOf(m, e, pos).WriteScalar? <==> e.cardinality <= 1
    ensures WriteConvOf(m, e, pos).WriteBoolArray? <==> IsBoolArray(e)
    ensures var leType := m.leConverterType(e.etype, e.cardinality);
            WriteConvOf(m, e, pos).WriteConvertedArray? <==>
              e.cardinality > 1 && e.etype != Bool && leType != m.csharpType(e.etype, e.cardinality)
    ensures var w := WriteConvOf(m, e, pos);
            w.WriteConvertedArray? ==> w.itemType == RemoveBrackets(m.leConverterType(e.etype, e.cardinality))
                                       && w.copyName == "_" + w.name
    ensures var w := WriteConvOf(m, e, pos);
            w.WriteScalar? || w.WriteArray? ==> w.leType == m.leConverterType(e.etype, e.cardinality)
    ensures var w := WriteConvOf(m, e, pos); !w.WriteScalar? ==> w.count == e.cardinality && w.count > 1
    ensures var w := WriteConvOf(m, e, pos);
            w.WriteBoolArray? ==> w.byteCount == Size(e) && w.bitsName == w.name + "Bits"
  {
  }

  /** The loop over the `in` elements, advancing `pos` from 8 by each element's size. */
  method EmitWrites(m: Mapper, ins: seq<Element>) returns (writes: seq<WriteConv>, end: nat)
    ensures writes == WriteConvs(m, ins)
    ensures end == Offset(ins, |ins|)
  {
    var pos := HeaderSize;
    ghost var spec := WriteConvs(m, ins);
    writes := [];
    for i := 0 to |ins|
      invariant pos == Offset(ins, i)
      invariant writes == spec[..i]
    {
      var element := ins[i];
      var wname := m.headlessCamelCase(element.name);
      var csharpType := m.leConverterType(element.etype, element.cardinality);
      var conv: WriteConv;
      if element.cardinality > 1 {
        if element.etype == Bool {
          conv := WriteBoolArray(wname + "Bits", CeilDiv8(element.cardinality), element.cardinality, wname, pos);
        } else if m.leConverterType(element.etype, element.cardinality) != m.csharpType(element.etype, element.cardinality) {
          var leItemType := RemoveBrackets(m.leConverterType(element.etype, element.cardinality));
          conv := WriteConvertedArray(leItemType, "_" + wname, element.cardinality, wname, pos);
        } else {
          conv := WriteArray(wname, pos, element.cardinality, csharpType);
        }
      } else {
        conv := WriteScalar(wname, pos, csharpType);
      }
      assert conv == spec[i];
      PrefixExtend(spec, i);
      writes := writes + [conv];
      OffsetStep(ins, i);
      pos := pos + Size(element);
    }
    PrefixWhole(spec);
    end := pos;
  }

  // ---------------------------------------------------------------------------
  // Reading the response

  /** One `out` element read from `response` at byte offset `pos` into its output parameter. */
  datatype ReadConv =
    /** `{name} = LEConverter.{fromMethod}({pos}, response{, count});` */
    | ReadValue(name: string, fromMethod: string, pos: nat, length: Option<nat>)
    /** Read `byte[{byteCount}] {bitsName}` at `{pos}`, then unpack `{count}` flags LSB first into `{name}`. */
    | ReadBoolArray(bitsName: string, byteCount: nat, pos: nat, count: nat, name: string)

  /** What follows the request writes. */
  datatype MethodTail =
    /** `SendRequest(request);` — no `out` elements. */
    | SendOnly
    /** `return LEConverter.{fromMethod}({pos}, response{, count});` — exactly one `out` element. */
    | ReturnValue(fromMethod: string, pos: nat, length: Option<nat>)
    /** One read per `out` element — two or more of them. */
    | AssignOutputs(assignments: seq<ReadConv>)

  function ReadConvOf(m: Mapper, e: Element, pos: nat): ReadConv {
    var aname := m.headlessCamelCase(e.name);
    if IsBoolArray(e) then ReadBoolArray(aname + "Bits", CeilDiv8(e.cardinality), pos, e.cardinality, aname)
    else ReadValue(aname, m.leConverterFromMethod(e.etype, e.cardinality), pos, LengthArg(e))
  }

  function ReadConvs(m: Mapper, outs: seq<Element>): (rs: seq<ReadConv>)
    ensures |rs| == |outs|
    ensures forall k :: 0 <= k < |outs| ==> rs[k].pos == Offset(outs, k)
  {
    seq(|outs|, k requires 0 <= k < |outs| => ReadConvOf(m, outs[k], Offset(outs, k)))
  }

  function TailOf(m: Mapper, outs: seq<Element>): MethodTail {
    if |outs| == 0 then SendOnly
    else if |outs| == 1 then
      ReturnValue(m.leConverterFromMethod(outs[0].etype, outs[0].cardinality), Offset(outs, 0), LengthArg(outs[0]))
    else AssignOutputs(ReadConvs(m, outs))
  }

  /**
   * No `out` elements: send only. One: return it directly from offset 8.
   * More: one assignment per element, each at that element's offset.
   */
  lemma TailShape(m: Mapper, outs: seq<Element>)
    ensures TailOf(m, outs).SendOnly? <==> |outs| == 0
    ensures TailOf(m, outs).ReturnValue? <==> |outs| == 1
    ensures var tail := TailOf(m, outs);
            tail.ReturnValue? ==> tail.pos == HeaderSize && tail.length == LengthArg(outs[0])
                                  && tail.fromMethod == m.leConverterFromMethod(outs[0].etype, outs[0].cardinality)
    ensures TailOf(m, outs).AssignOutputs? ==> TailOf(m, outs).assignments == ReadConvs(m, outs)
  {
  }

  /** A bool array is read as bytes and unpacked; any other element is read directly, with its count when it is an array. */
  lemma ReadShape(m: Mapper, e: Element, pos: nat)
    ensures var r := ReadConvOf(m, e, pos); r.pos == pos && r.name == m.headlessCamelCase(e.name)
    ensures ReadConvOf(m, e, pos).ReadBoolArray? <==> IsBoolArray(e)
    ensures var r := ReadConvOf(m, e, pos);
            r.ReadBoolArray? ==> r.count == e.cardinality && r.byteCount == Size(e) && r.bitsName == r.name + "Bits"
    ensures var r := ReadConvOf(m, e, pos);
            r.ReadValue? ==> r.length == LengthArg(e) && r.fromMethod == m.leConverterFromMethod(e.etype, e.cardinality)
  {
  }

  /**
   * The loop over the `out` elements. With one element the read becomes a
   * direct return; the loop still advances `pos` as for any count.
   */
  method EmitTail(m: Mapper, outs: seq<Element>) returns (tail: MethodTail)
    ensures tail == TailOf(m, outs)
  {
    var retCount := |outs|;
    var pos := HeaderSize;
    var returned := SendOnly;
    var assignments: seq<ReadConv> := [];
    ghost var spec := ReadConvs(m, outs);
    for i := 0 to |outs|
      invariant pos == Offset(outs, i)
      invariant retCount == 1 && i == 1 ==> returned == TailOf(m, outs)
      invariant retCount != 1 ==> assignments == spec[..i]
    {
      var element := outs[i];
      var aname := m.headlessCamelCase(element.name);
      var fromMethod := m.leConverterFromMethod(element.etype, element.cardinality);
      var length: Option<nat> := None;
      if element.cardinality > 1 && element.etype != Bool {
        length := Some(element.cardinality);
      }
      if retCount == 1 {
        returned := ReturnValue(fromMethod, pos, length);
      } else {
        var read: ReadConv;
        if element.cardinality > 1 && element.etype == Bool {
          read := ReadBoolArray(aname + "Bits", CeilDiv8(element.cardinality), pos, element.cardinality, aname);
        } else {
          read := ReadValue(aname, fromMethod, pos, length);
        }
        assert read == spec[i];
        PrefixExtend(spec, i);
        assignments := assignments + [read];
      }
      OffsetStep(outs, i);
      pos := pos + Size(element);
    }
    PrefixWhole(spec);
    if retCount > 0 {
      if retCount == 1 {
        tail := returned;
      } else {
        tail := AssignOutputs(assignments);
      }
    } else {
      tail := SendOnly;
    }
  }

  // ---------------------------------------------------------------------------
  // Whole methods

  /** One generated method: signature, request size, function id, writes, tail and doc comment. */
  datatype MethodDecl = MethodDecl(
    signature: string,
    requestSize: nat,
    upperName: string,
    writes: seq<WriteConv>,
    tail: MethodTail,
    doc: string)

  function MethodDeclOf(m: Mapper, p: Packet): MethodDecl {
    MethodDecl(m.methodSignature(p), RequestSize(p), m.upperCase(p.name),
               WriteConvs(m, Ins(p)), TailOf(m, Outs(p)), FormattedDoc(m, p))
  }

  function MethodDecls(m: Mapper, d: Device): (methods: seq<MethodDecl>)
    ensures |methods| == |Functions(d)|
  {
    var fs := Functions(d);
    seq(|fs|, k requires 0 <= k < |fs| => MethodDeclOf(m, fs[k]))
  }

  method EmitMethod(m: Mapper, packet: Packet) returns (decl: MethodDecl)
    ensures decl == MethodDeclOf(m, packet)
  {
    var size := RequestSize(packet);
    var nameUpper := m.upperCase(packet.name);
    var doc := FormatDoc(m, packet);
    var writes, _ := EmitWrites(m, Ins(packet));
    var tail := EmitTail(m, Outs(packet));
    decl := MethodDecl(m.methodSignature(packet), size, nameUpper, writes, tail, doc);
  }

  /** `get_csharp_methods`: one method per function, in function order. */
  method EmitMethods(m: Mapper, d: Device) returns (methods: seq<MethodDecl>)
    ensures methods == MethodDecls(m, d)
  {
    var fs := Functions(d);
    ghost var spec := MethodDecls(m, d);
    methods := [];
    for i := 0 to |fs|
      invariant methods == spec[..i]
    {
      var decl := EmitMethod(m, fs[i]);
      PrefixExtend(spec, i);
      methods := methods + [decl];
    }
    PrefixWhole(spec);
  }

  // ---------------------------------------------------------------------------
  // Properties

  /**
   * Every write stays inside the request the method creates, after the
   * 8-byte header, and no two writes overlap.
   */
  lemma WritesWithinRequest(m: Mapper, p: Packet, j: nat, k: nat)
    requires j < k < |Ins(p)|
    ensures var ins, writes := Ins(p), WriteConvs(m, Ins(p));
            HeaderSize <= writes[j].pos && writes[j].pos + Size(ins[j]) <= writes[k].pos
            && writes[k].pos + Size(ins[k]) <= MethodDeclOf(m, p).requestSize
  {
    FieldsDisjointAndInFrame(Ins(p), j, k);
    RequestSizeIsEndOfRequest(p);
  }

  /** Each write, also the only one of a one-argument method, lies after the header and inside the request. */
  lemma WriteWithinRequest(m: Mapper, p: Packet, k: nat)
    requires k < |Ins(p)|
    ensures var ins, writes := Ins(p), WriteConvs(m, Ins(p));
            HeaderSize <= writes[k].pos && writes[k].pos + Size(ins[k]) <= MethodDeclOf(m, p).requestSize
  {
    InFrame(Ins(p), k);
    RequestSizeIsEndOfRequest(p);
  }

  /** The request size is where the last write ends. */
  lemma RequestSizeIsWhereWritesEnd(m: Mapper, p: Packet)
    ensures |Ins(p)| > 0 ==> var ins := Ins(p); var last := |ins| - 1;
            WriteConvs(m, ins)[last].pos + Size(ins[last]) == MethodDeclOf(m, p).requestSize
    ensures |Ins(p)| == 0 ==> MethodDeclOf(m, p).requestSize == HeaderSize
  {
    RequestSizeIsEndOfRequest(p);
    if |Ins(p)| > 0 {
      OffsetStep(Ins(p), |Ins(p)| - 1);
    }
  }

  /**
   * A bool array goes on the wire as exactly its encoded size, and packing
   * then unpacking with the counts the method emits gives the flags back.
   */
  lemma BoolArrayRoundTrip(m: Mapper, e: Element, pos: nat, flags: seq<bool>)
    requires IsBoolArray(e) && |flags| == e.cardinality
    ensures WriteConvOf(m, e, pos).WriteBoolArray? && ReadConvOf(m, e, pos).ReadBoolArray?
    ensures WriteConvOf(m, e, pos).byteCount == Size(e) == |BitPacking.Pack(flags)|
    ensures ReadConvOf(m, e, pos).byteCount == Size(e)
    ensures BitPacking.Unpack(BitPacking.Pack(flags), ReadConvOf(m, e, pos).count) == flags
  {
    BitPacking.UnpackPack(flags);
  }
}

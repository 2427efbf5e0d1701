/**
 * The in-memory device description the C# generator consumes: a device owns
 * constant groups and packets (functions and callbacks); a packet owns typed
 * elements, each either part of the request (`in`) or of the response or
 * callback payload (`out`).
 *
 * The naming and type-mapping helpers of the shared generator code
 * (`get_upper_case_name`, `get_camel_case_name`, `get_csharp_type`,
 * `get_csharp_le_converter_*`, `get_csharp_parameter_list`,
 * `get_csharp_method_signature`, the reStructuredText post-processing of
 * documentation and the header comment) are not part of this model: they
 * enter as the function table `Mapper`.
 */
module DeviceModel {

  /** Element types of the configuration files (`'bool'`, `'char'`, `'string'`, `'int8'`, ...). */
  datatype ElementType =
    | Bool | Char | String
    | Int8 | UInt8 | Int16 | UInt16 | Int32 | UInt32 | Int64 | UInt64
    | Float

  datatype Direction = In | Out

  /** One `(name, type, cardinality, direction)` tuple of a packet. */
  datatype Element = Element(name: string, etype: ElementType, cardinality: nat, direction: Direction)

  datatype PacketKind = Function | Callback

  /** A function or callback; `docType` is the first entry of its `'doc'` list (`'bf'`, `'ccf'`, `'llf'`, ...). */
  datatype Packet = Packet(
    kind: PacketKind,
    name: string,
    functionId: nat,
    elements: seq<Element>,
    docType: string,
    docText: string)

  /** A constant's value: characters for `'char'` groups, integers otherwise. */
  datatype Value = IntValue(i: int) | CharValue(c: char)

  datatype Constant = Constant(name: string, value: Value)

  datatype ConstantGroup = ConstantGroup(name: string, ctype: ElementType, constants: seq<Constant>)

  datatype ApiVersion = ApiVersion(major: nat, minor: nat, release: nat)

  datatype Device = Device(
    className: string,
    description: string,
    deviceIdentifier: nat,
    longDisplayName: string,
    apiVersion: ApiVersion,
    released: bool,
    constantGroups: seq<ConstantGroup>,
    packets: seq<Packet>)

  /** The helpers of the shared generator code this model takes as given. */
  datatype Mapper = Mapper(
    upperCase: string -> string,
    camelCase: (string, int) -> string,
    headlessCamelCase: string -> string,
    csharpType: (ElementType, nat) -> string,
    leConverterType: (ElementType, nat) -> string,
    leConverterFromMethod: (ElementType, nat) -> string,
    parameterList: Packet -> string,
    methodSignature: Packet -> string,
    headerComment: string,
    docPostProcess: (Packet, string) -> string)

  // ---------------------------------------------------------------------------
  // Encoded sizes

  /** Python's `int(math.ceil(n / 8.0))`, the byte count of a packed bool array. */
  function CeilDiv8(n: nat): (r: nat)
    ensures 8 * r >= n && 8 * r < n + 8
  {
    (n + 7) / 8
  }

  /** Bytes per item of each element type on the wire. */
  function TypeWidth(t: ElementType): (w: nat)
    ensures w in {1, 2, 4, 8}
  {
    match t
    case Bool | Char | String | Int8 | UInt8 => 1
    case Int16 | UInt16 => 2
    case Int32 | UInt32 | Float => 4
    case Int64 | UInt64 => 8
  }

  /**
   * The encoded size of an element (`get_size()`): bool arrays are
   * bit-packed, every other element takes its count times its item width
   * (written per width, so that sizes stay linear in the count).
   */
  function Size(e: Element): nat {
    var n := e.cardinality;
    match e.etype
    case Bool => CeilDiv8(n)
    case Char | String | Int8 | UInt8 => n
    case Int16 | UInt16 => 2 * n
    case Int32 | UInt32 | Float => 4 * n
    case Int64 | UInt64 => 8 * n
  }

  /** A bool array takes `ceil(n/8)` bytes; any other element `n` items of its type's width. */
  lemma SizeIsCountTimesWidth(e: Element)
    ensures e.etype == Bool ==> Size(e) == CeilDiv8(e.cardinality)
    ensures e.etype != Bool ==> Size(e) == e.cardinality * TypeWidth(e.etype)
  {
  }

  predicate IsBoolArray(e: Element) {
    e.cardinality > 1 && e.etype == Bool
  }

  // ---------------------------------------------------------------------------
  // Selections (`get_elements(direction)`, `get_packets(kind)`, `get_packet_names(kind)`)

  function ElementsOf(es: seq<Element>, d: Direction): (r: seq<Element>)
    ensures |r| <= |es|
    ensures forall k :: 0 <= k < |r| ==> r[k].direction == d && r[k] in es
  {
    if es == [] then []
    else (if es[0].direction == d then [es[0]] else []) + ElementsOf(es[1..], d)
  }

  function PacketsOf(ps: seq<Packet>, kind: PacketKind): (r: seq<Packet>)
    ensures |r| <= |ps|
    ensures forall k :: 0 <= k < |r| ==> r[k].kind == kind && r[k] in ps
  {
    if ps == [] then []
    else (if ps[0].kind == kind then [ps[0]] else []) + PacketsOf(ps[1..], kind)
  }

  function Ins(p: Packet): seq<Element> { ElementsOf(p.elements, In) }

  function Outs(p: Packet): seq<Element> { ElementsOf(p.elements, Out) }

  function Functions(d: Device): seq<Packet> { PacketsOf(d.packets, Function) }

  function Callbacks(d: Device): seq<Packet> { PacketsOf(d.packets, Callback) }

  function PacketNames(ps: seq<Packet>, kind: PacketKind): (names: seq<string>)
    ensures |names| == |PacketsOf(ps, kind)|
    ensures forall k :: 0 <= k < |names| ==> names[k] == PacketsOf(ps, kind)[k].name
  {
    var sel := PacketsOf(ps, kind);
    seq(|sel|, k requires 0 <= k < |sel| => sel[k].name)
  }

  /** Selecting from a concatenation selects from each part, in order. */
  lemma {:induction false} ElementsOfAppend(a: seq<Element>, b: seq<Element>, d: Direction)
    ensures ElementsOf(a + b, d) == ElementsOf(a, d) + ElementsOf(b, d)
  {
    if a != [] {
      var head := if a[0].direction == d then [a[0]] else [];
      assert (a + b)[0] == a[0] && (a + b)[1..] == a[1..] + b;
      assert ElementsOf(a + b, d) == head + ElementsOf(a[1..] + b, d);
      ElementsOfAppend(a[1..], b, d);
      assert ElementsOf(a, d) == head + ElementsOf(a[1..], d);
    } else {
      assert a + b == b;
    }
  }

  /** A single element is kept exactly when it has the direction. */
  lemma ElementsOfSingle(e: Element, d: Direction)
    ensures ElementsOf([e], d) == if e.direction == d then [e] else []
  {
    assert [e][1..] == [];
  }

  /** Selecting from a concatenation selects from each part, in order. */
  lemma {:induction false} PacketsOfAppend(a: seq<Packet>, b: seq<Packet>, kind: PacketKind)
    ensures PacketsOf(a + b, kind) == PacketsOf(a, kind) + PacketsOf(b, kind)
  {
    if a != [] {
      var head := if a[0].kind == kind then [a[0]] else [];
      assert (a + b)[0] == a[0] && (a + b)[1..] == a[1..] + b;
      assert PacketsOf(a + b, kind) == head + PacketsOf(a[1..] + b, kind);
      PacketsOfAppend(a[1..], b, kind);
      assert PacketsOf(a, kind) == head + PacketsOf(a[1..], kind);
    } else {
      assert a + b == b;
    }
  }

  /** A single packet is kept exactly when it has the kind. */
  lemma PacketsOfSingle(p: Packet, kind: PacketKind)
    ensures PacketsOf([p], kind) == if p.kind == kind then [p] else []
  {
    assert [p][1..] == [];
  }

  /** Every element is in exactly one of the request and the response layout. */
  lemma {:induction false} DirectionsPartition(es: seq<Element>)
    ensures |ElementsOf(es, In)| + |ElementsOf(es, Out)| == |es|
    ensures forall e :: e in es ==> e in ElementsOf(es, e.direction)
  {
    if es != [] {
      DirectionsPartition(es[1..]);
      forall e | e in es ensures e in ElementsOf(es, e.direction) {
        if e != es[0] {
          assert e in es[1..];
        }
      }
    }
  }

  /** Every packet is either a function or a callback: the two selections cover the device. */
  lemma {:induction false} KindsPartition(ps: seq<Packet>)
    ensures |PacketsOf(ps, Function)| + |PacketsOf(ps, Callback)| == |ps|
    ensures forall p :: p in ps ==> p in PacketsOf(ps, p.kind)
  {
    if ps != [] {
      KindsPartition(ps[1..]);
      forall p | p in ps ensures p in PacketsOf(ps, p.kind) {
        if p != ps[0] {
          assert p in ps[1..];
        }
      }
    }
  }

  /** `ceil(n/8)` for the bool-array lengths the generator meets: the 5-entry `GPIO` array fits one byte, 8 entries one byte, 9 entries two. */
  lemma PackedByteCounts()
    ensures CeilDiv8(5) == 1 && CeilDiv8(8) == 1 && CeilDiv8(9) == 2 && CeilDiv8(64) == 8
    ensures forall n: nat :: n > 0 ==> CeilDiv8(n) > 0 && 8 * (CeilDiv8(n) - 1) < n
  {
  }
}

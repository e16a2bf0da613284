/** Attribute value types, and the buffers list-valued attributes are read into. */
module AttributeTypes {
  import opened Text

  /** The value types the tool's switches name; Inline stands for all the others. */
  datatype ValueType =
    // lists with a count the tool can bind a buffer to
    | ObjectList | Uint8List | Int8List | Uint16List | Int16List | Uint32List | Int32List
    | Uint16RangeList | VlanList | QosMapList | MapList | TlvList | SegmentList | IpAddressList
    | AclCapability | AclResourceList | SystemPortConfigList | JsonText | IpPrefixList | AclChainList
    // types the tool cannot ask for
    | Pointer | PortEyeValuesList | PortErrStatusList | PortLaneLatchStatusList
    | PortFrequencyOffsetPpmList | PortSnrList | PortPam4EyeValuesList | TapsList
    | PrbsPerLaneRxStatusList | PrbsPerLaneRxStateList | PrbsPerLaneBitErrorRateList
    // types conditions can be evaluated on
    | Bool | Int8 | Int16 | Int32 | Int64 | Uint8 | Uint16 | Uint32 | Uint64
    // any other type held inline in the value
    | Inline(code: nat)

  predicate IsBuffered(t: ValueType) {
    match t
    case ObjectList | Uint8List | Int8List | Uint16List | Int16List | Uint32List | Int32List
       | Uint16RangeList | VlanList | QosMapList | MapList | TlvList | SegmentList | IpAddressList
       | AclCapability | AclResourceList | SystemPortConfigList | JsonText | IpPrefixList
       | AclChainList => true
    case _ => false
  }

  predicate CanFetch(t: ValueType) {
    match t
    case Pointer | PortEyeValuesList | PortErrStatusList | PortLaneLatchStatusList
       | PortFrequencyOffsetPpmList | PortSnrList | PortPam4EyeValuesList | TapsList
       | PrbsPerLaneRxStatusList | PrbsPerLaneRxStateList | PrbsPerLaneBitErrorRateList => false
    case _ => true
  }

  predicate IsConditionEvaluable(t: ValueType) {
    match t
    case Bool | Int8 | Int16 | Int32 | Int64 | Uint8 | Uint16 | Uint32 | Uint64 => true
    case _ => false
  }

  /** The list types, the types that cannot be asked for, and the types conditions can test. */
  const LIST_TYPES: set<ValueType> := {
    ObjectList, Uint8List, Int8List, Uint16List, Int16List, Uint32List, Int32List, Uint16RangeList, VlanList,
    QosMapList, MapList, TlvList, SegmentList, IpAddressList, AclCapability, AclResourceList,
    SystemPortConfigList, JsonText, IpPrefixList, AclChainList}
  const UNFETCHABLE_TYPES: set<ValueType> := {
    Pointer, PortEyeValuesList, PortErrStatusList, PortLaneLatchStatusList, PortFrequencyOffsetPpmList,
    PortSnrList, PortPam4EyeValuesList, TapsList, PrbsPerLaneRxStatusList, PrbsPerLaneRxStateList,
    PrbsPerLaneBitErrorRateList}
  const TESTABLE_TYPES: set<ValueType> := {Bool, Int8, Int16, Int32, Int64, Uint8, Uint16, Uint32, Uint64}

  lemma ListTypesAreExact(t: ValueType)
    ensures IsBuffered(t) <==> t in LIST_TYPES
  {
  }

  lemma UnfetchableTypesAreExact(t: ValueType)
    ensures CanFetch(t) <==> t !in UNFETCHABLE_TYPES
  {
  }

  lemma TestableTypesAreExact(t: ValueType)
    ensures IsConditionEvaluable(t) <==> t in TESTABLE_TYPES
  {
  }

  /** The switches single out exactly the listed types, whatever other inline types there are. */
  lemma TypesAreExact(t: ValueType)
    ensures IsBuffered(t) <==> t in LIST_TYPES
    ensures CanFetch(t) <==> t !in UNFETCHABLE_TYPES
    ensures IsConditionEvaluable(t) <==> t in TESTABLE_TYPES
  {
    hide *;
    ListTypesAreExact(t);
    UnfetchableTypesAreExact(t);
    TestableTypesAreExact(t);
  }

  /** The vectors of AttributeStorage. */
  datatype Slot =
    | ObjectIds | U8Values | S8Values | U16Values | S16Values | U32Values | S32Values | U16Ranges
    | Vlans | QosMaps | AclResources | IpAddresses | SystemPorts | IpPrefixes | AclChains
    | MapEntries | TlvEntries | Segments

  /** The vector bind_attribute_buffer resizes for a type. */
  function BoundSlot(t: ValueType): Option<Slot> {
    match t
    case ObjectList => Some(ObjectIds)
    case Uint8List => Some(U8Values)
    case Int8List => Some(S8Values)
    case Uint16List => Some(U16Values)
    case Int16List => Some(S16Values)
    case Uint32List => Some(U32Values)
    case Int32List => Some(S32Values)
    case Uint16RangeList => Some(U16Ranges)
    case VlanList => Some(Vlans)
    case QosMapList => Some(QosMaps)
    case MapList => Some(MapEntries)
    case TlvList => Some(TlvEntries)
    case SegmentList => Some(Segments)
    case AclCapability => Some(S32Values)
    case AclResourceList => Some(AclResources)
    case IpAddressList => Some(IpAddresses)
    case SystemPortConfigList => Some(SystemPorts)
    case JsonText => Some(S8Values)
    case IpPrefixList => Some(IpPrefixes)
    case AclChainList => Some(AclChains)
    case _ => None
  }

  /** The vector current_buffer_capacity measures for a type. */
  function MeasuredSlot(t: ValueType): Option<Slot> {
    match t
    case ObjectList => Some(ObjectIds)
    case Uint8List => Some(U8Values)
    case Int8List | JsonText => Some(S8Values)
    case Uint16List => Some(U16Values)
    case Int16List => Some(S16Values)
    case Uint32List => Some(U32Values)
    case Int32List | AclCapability => Some(S32Values)
    case Uint16RangeList => Some(U16Ranges)
    case VlanList => Some(Vlans)
    case QosMapList => Some(QosMaps)
    case MapList => Some(MapEntries)
    case TlvList => Some(TlvEntries)
    case SegmentList => Some(Segments)
    case AclResourceList => Some(AclResources)
    case IpAddressList => Some(IpAddresses)
    case SystemPortConfigList => Some(SystemPorts)
    case IpPrefixList => Some(IpPrefixes)
    case AclChainList => Some(AclChains)
    case _ => None
  }

  /** The five switches over value types agree with each other. */
  lemma SwitchesAgree(t: ValueType)
    ensures IsBuffered(t) <==> BoundSlot(t).Some?
    ensures BoundSlot(t) == MeasuredSlot(t)
    ensures IsBuffered(t) ==> CanFetch(t)
    ensures IsConditionEvaluable(t) ==> CanFetch(t) && !IsBuffered(t)
  {
  }

  const INITIAL_LIST_CAPACITY: nat := 64
  const MAXIMUM_LIST_CAPACITY: nat := 1024 * 1024

  /** An attribute as a getter sees it: its id, the count of its list if it is one, its inline value. */
  datatype Attribute = Attribute(id: nat, count: uint32, value: int)

  class AttributeStorage {
    var sizes: map<Slot, nat>

    constructor ()
      ensures sizes == map[]
    {
      sizes := map[];
    }

    function Size(slot: Slot): nat
      reads this
    {
      if slot in sizes then sizes[slot] else 0
    }

    /** current_buffer_capacity */
    function Capacity(t: ValueType): nat
      reads this
    {
      match MeasuredSlot(t)
      case Some(slot) => Size(slot)
      case None => 0
    }

    /** bind_attribute_buffer: resizes the type's vector and offers its size as the count. */
    method Bind(t: ValueType, count: uint32, attribute: Attribute) returns (ok: bool, bound: Attribute)
      modifies this
      ensures ok <==> count <= MAXIMUM_LIST_CAPACITY && IsBuffered(t)
      ensures ok ==> bound == attribute.(count := count) && Capacity(t) == bound.count
      ensures !ok ==> bound == attribute && sizes == old(sizes)
    {
      SwitchesAgree(t);
      if count > MAXIMUM_LIST_CAPACITY {
        return false, attribute;
      }
      match BoundSlot(t)
      case Some(slot) =>
        sizes := sizes[slot := count];
        return true, attribute.(count := count);
      case None =>
        return false, attribute;
    }
  }

  /** get_buffer_count */
  function BufferCount(t: ValueType, attribute: Attribute): uint32 {
    if IsBuffered(t) then attribute.count else 0
  }
}

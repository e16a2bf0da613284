/** Status codes of the switch abstraction interface, and the buckets reports count them in. */
module SaiStatus {
  import opened Text

  // SAI_STATUS_CODE(x) is -x on every build but Windows.
  const SUCCESS: int32 := 0
  const FAILURE: int32 := -0x01
  const NOT_SUPPORTED: int32 := -0x02
  const NO_MEMORY: int32 := -0x03
  const INSUFFICIENT_RESOURCES: int32 := -0x04
  const INVALID_PARAMETER: int32 := -0x05
  const ITEM_ALREADY_EXISTS: int32 := -0x06
  const ITEM_NOT_FOUND: int32 := -0x07
  const BUFFER_OVERFLOW: int32 := -0x08
  const TABLE_FULL: int32 := -0x0D
  const MANDATORY_ATTRIBUTE_MISSING: int32 := -0x0E
  const NOT_IMPLEMENTED: int32 := -0x0F
  const OBJECT_IN_USE: int32 := -0x11
  const INVALID_OBJECT_TYPE: int32 := -0x12
  const INVALID_OBJECT_ID: int32 := -0x13

  function StatusName(status: int32): string {
    if status == SUCCESS then "SUCCESS"
    else if status == FAILURE then "FAILURE"
    else if status == NOT_SUPPORTED then "NOT_SUPPORTED"
    else if status == NO_MEMORY then "NO_MEMORY"
    else if status == INSUFFICIENT_RESOURCES then "INSUFFICIENT_RESOURCES"
    else if status == INVALID_PARAMETER then "INVALID_PARAMETER"
    else if status == ITEM_ALREADY_EXISTS then "ITEM_ALREADY_EXISTS"
    else if status == ITEM_NOT_FOUND then "ITEM_NOT_FOUND"
    else if status == BUFFER_OVERFLOW then "BUFFER_OVERFLOW"
    else if status == INVALID_OBJECT_TYPE then "INVALID_OBJECT_TYPE"
    else if status == INVALID_OBJECT_ID then "INVALID_OBJECT_ID"
    else if status == NOT_IMPLEMENTED then "NOT_IMPLEMENTED"
    else if status == OBJECT_IN_USE then "OBJECT_IN_USE"
    else if status == TABLE_FULL then "TABLE_FULL"
    else if status == MANDATORY_ATTRIBUTE_MISSING then "MANDATORY_ATTRIBUTE_MISSING"
    else "OTHER"
  }

  /** static_cast<uint32_t>(status). */
  function RawCode(status: int32): uint32 {
    if status < 0 then status + 0x1_0000_0000 else status
  }

  /** raw & 0xFFFF0000. */
  function HighHalf(raw: uint32): (h: nat)
    ensures h <= raw < h + 0x1_0000
  {
    raw - raw % 0x1_0000
  }

  function ClassifyStatus(status: int32): string {
    var plain := StatusName(status);
    if plain != "OTHER" then plain
    else
      var band := HighHalf(RawCode(status));
      if band == 0xFFFB_0000 || band == 0x0005_0000 then "ATTR_NOT_SUPPORTED"
      else if band == 0xFFFC_0000 || band == 0x0004_0000 then "UNKNOWN_ATTRIBUTE"
      else if band == 0xFFFD_0000 || band == 0x0003_0000 then "ATTR_NOT_IMPLEMENTED"
      else if band == 0xFFFE_0000 || band == 0x0002_0000 then "INVALID_ATTR_VALUE"
      else if band == 0xFFFF_0000 || band == 0x0001_0000 then "INVALID_ATTRIBUTE"
      else "OTHER"
  }

  // ----- the documented ranges

  /** The statuses with a name of their own. */
  predicate IsPlain(status: int32) {
    status in {SUCCESS, FAILURE, NOT_SUPPORTED, NO_MEMORY, INSUFFICIENT_RESOURCES, INVALID_PARAMETER,
               ITEM_ALREADY_EXISTS, ITEM_NOT_FOUND, BUFFER_OVERFLOW, TABLE_FULL,
               MANDATORY_ATTRIBUTE_MISSING, NOT_IMPLEMENTED, OBJECT_IN_USE, INVALID_OBJECT_TYPE,
               INVALID_OBJECT_ID}
  }

  /** The five per-attribute ranges; range k has base k * 2^16. */
  function RangeName(k: nat): string
    requires 1 <= k <= 5
  {
    ["INVALID_ATTRIBUTE", "INVALID_ATTR_VALUE", "ATTR_NOT_IMPLEMENTED", "UNKNOWN_ATTRIBUTE",
     "ATTR_NOT_SUPPORTED"][k - 1]
  }

  lemma PlainStatusesKeepTheirName(status: int32)
    ensures IsPlain(status) <==> StatusName(status) != "OTHER"
    ensures IsPlain(status) ==> ClassifyStatus(status) == StatusName(status)
  {
  }

  /** The names, by the codes the interface gives them. */
  lemma NamesByCode()
    ensures StatusName(0) == "SUCCESS" && StatusName(-1) == "FAILURE" && StatusName(-2) == "NOT_SUPPORTED"
    ensures StatusName(-3) == "NO_MEMORY" && StatusName(-4) == "INSUFFICIENT_RESOURCES"
    ensures StatusName(-5) == "INVALID_PARAMETER" && StatusName(-6) == "ITEM_ALREADY_EXISTS"
    ensures StatusName(-7) == "ITEM_NOT_FOUND" && StatusName(-8) == "BUFFER_OVERFLOW" && StatusName(-13) == "TABLE_FULL"
    ensures StatusName(-14) == "MANDATORY_ATTRIBUTE_MISSING" && StatusName(-15) == "NOT_IMPLEMENTED"
    ensures StatusName(-17) == "OBJECT_IN_USE" && StatusName(-18) == "INVALID_OBJECT_TYPE"
    ensures StatusName(-19) == "INVALID_OBJECT_ID"
    ensures SUCCESS == 0 && FAILURE == -1 && NO_MEMORY == -3 && BUFFER_OVERFLOW == -8
  {
  }

  /** Every plain status has a bucket of its own: no other status is counted with it. */
  lemma PlainStatusesStandAlone(status: int32, other: int32)
    requires IsPlain(status) && other != status
    ensures ClassifyStatus(other) != ClassifyStatus(status)
  {
  }

  /** The interval of values that share range k's bucket. */
  predicate InBand(status: int32, k: nat) {
    0 - k * 0x1_0000 <= status < 0 - k * 0x1_0000 + 0x1_0000
    || k * 0x1_0000 <= status < k * 0x1_0000 + 0x1_0000
  }

  lemma BandOfRawCode(status: int32, k: nat)
    requires 1 <= k <= 5
    ensures InBand(status, k) <==>
            HighHalf(RawCode(status)) == k * 0x1_0000
            || HighHalf(RawCode(status)) == 0x1_0000_0000 - k * 0x1_0000
  {
    var raw := RawCode(status);
    assert raw == raw / 0x1_0000 * 0x1_0000 + raw % 0x1_0000;
  }

  /**
    The exact bucket of every 32-bit value that is not a plain status: range k's bucket holds
    the interval of 2^16 values that starts at its base, or at minus its base, and nothing else.
   */
  lemma RangeBuckets(status: int32, k: nat)
    requires 1 <= k <= 5 && !IsPlain(status)
    ensures ClassifyStatus(status) == RangeName(k) <==> InBand(status, k)
  {
    PlainStatusesKeepTheirName(status);
    BandOfRawCode(status, 1);
    BandOfRawCode(status, 2);
    BandOfRawCode(status, 3);
    BandOfRawCode(status, 4);
    BandOfRawCode(status, 5);
    RangeNamesDiffer();
  }

  lemma RangeNamesDiffer()
    ensures forall j, k :: 1 <= j < k <= 5 ==> RangeName(j) != RangeName(k)
    ensures forall k :: 1 <= k <= 5 ==> RangeName(k) != "OTHER"
  {
    assert |RangeName(1)| == 17 && |RangeName(2)| == 18 && |RangeName(3)| == 20;
    assert RangeName(4)[0] == 'U' && |RangeName(4)| == 17;
    assert RangeName(5)[0] == 'A' && |RangeName(5)| == 18;
  }

  lemma EverythingElseIsOther(status: int32)
    requires !IsPlain(status)
    ensures ClassifyStatus(status) == "OTHER" <==> forall k :: 1 <= k <= 5 ==> !InBand(status, k)
  {
    RangeNamesDiffer();
    if forall k :: 1 <= k <= 5 ==> !InBand(status, k) {
      BandOfRawCode(status, 1);
      BandOfRawCode(status, 2);
      BandOfRawCode(status, 3);
      BandOfRawCode(status, 4);
      BandOfRawCode(status, 5);
    } else {
      var k :| 1 <= k <= 5 && InBand(status, k);
      RangeBuckets(status, k);
    }
  }

  /**
    The statuses vendors number as "range base + attribute index" before negation, -(base + i),
    run away from zero, so only index 0 falls in its own range's bucket: the others land in the
    next range's bucket, and those of the last range land in OTHER.
   */
  lemma NumberedCodes(k: nat, i: nat)
    requires 1 <= k <= 5 && i < 0x1_0000
    ensures var status: int32 := -(k * 0x1_0000 + i);
            && (ClassifyStatus(status) == RangeName(k) <==> i == 0)
            && (i > 0 ==> ClassifyStatus(status) == (if k < 5 then RangeName(k + 1) else "OTHER"))
  {
    hide ClassifyStatus, RangeName;
    var status: int32 := -(k * 0x1_0000 + i);
    RangeBuckets(status, k);
    if i > 0 {
      if k < 5 {
        RangeBuckets(status, k + 1);
      } else {
        EverythingElseIsOther(status);
      }
    }
  }

  // ----- fetch outcomes and their summary

  datatype FetchKind = Ok | Skipped | Failed

  datatype FetchOutcome = FetchOutcome(result: FetchKind, status: int32)

  function SummaryBucket(kind: FetchKind, status: int32): string {
    match kind
    case Ok => "ok"
    case Skipped => "skipped_by_tool"
    case Failed => ClassifyStatus(status)
  }

  lemma NamesAreUpperCase(status: int32)
    ensures |StatusName(status)| > 0 && 'A' <= StatusName(status)[0] <= 'Z'
  {
  }

  /** No status is classified under one of the tool's own two labels. */
  lemma StatusBucketsAreNotToolLabels(status: int32)
    ensures ClassifyStatus(status) != "ok" && ClassifyStatus(status) != "skipped_by_tool"
  {
    hide StatusName, HighHalf, RawCode;
    NamesAreUpperCase(status);
    var bucket := ClassifyStatus(status);
    assert "ok"[0] == 'o' && "skipped_by_tool"[0] == 's';
    assert 'A' <= bucket[0] <= 'Z';
  }
}

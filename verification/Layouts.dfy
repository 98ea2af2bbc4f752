/** The field tables of the three protocols: the record size, then (offset, length) of each field. */
module Layouts {
  import opened Bytes
  import opened Records
  import opened SoupPacket

  datatype Layout = Layout(size: nat, fields: seq<Field>)

  /** Where field i must end: at the next field, or at the end of the record. */
  function Limit(l: Layout, i: nat): (r: nat) {
    if i + 1 < |l.fields| then l.fields[i + 1].offset else l.size
  }

  /** The computed check: the fields ascend, and none reaches past its limit. */
  predicate Ascending(l: Layout) {
    forall i :: 0 <= i < |l.fields| ==> End(l.fields[i]) <= Limit(l, i)
  }

  /** Declaring a table with this type makes the verifier run the check on it. */
  type MapLayout = l: Layout | Ascending(l) witness Layout(0, [])

  // ITCH 5.0 messages
  const ITCH_SYSTEM_EVENT: MapLayout := Layout(12, [Field(0, 1), Field(1, 2), Field(3, 2), Field(5, 6), Field(11, 1)])
  const ITCH_STOCK_DIRECTORY: MapLayout := Layout(39, [
    Field(0, 1), Field(1, 2), Field(3, 2), Field(5, 6), Field(11, 8), Field(19, 1), Field(20, 1), Field(21, 4),
    Field(25, 1), Field(26, 1), Field(27, 2), Field(29, 1), Field(30, 1), Field(31, 1), Field(32, 1), Field(33, 1),
    Field(34, 4), Field(38, 1)])
  const ITCH_STOCK_TRADING_ACTION: MapLayout := Layout(25, [
    Field(0, 1), Field(1, 2), Field(3, 2), Field(5, 6), Field(11, 8), Field(19, 1), Field(20, 1), Field(21, 4)])
  const ITCH_REG_SHO_RESTRICTION: MapLayout := Layout(20, [
    Field(0, 1), Field(1, 2), Field(3, 2), Field(5, 6), Field(11, 8), Field(19, 1)])
  const ITCH_MARKET_PARTICIPANT_POSITION: MapLayout := Layout(26, [
    Field(0, 1), Field(1, 2), Field(3, 2), Field(5, 6), Field(11, 4), Field(15, 8), Field(23, 1), Field(24, 1),
    Field(25, 1)])
  const ITCH_MWCP_DECLINE_LEVEL: MapLayout := Layout(35, [
    Field(0, 1), Field(1, 2), Field(3, 2), Field(5, 6), Field(11, 8), Field(19, 8), Field(27, 8)])
  const ITCH_MWCP_STATUS: MapLayout := Layout(12, [Field(0, 1), Field(1, 2), Field(3, 2), Field(5, 6), Field(11, 1)])
  const ITCH_IPO_QUOTING_PERIOD_UPDATE: MapLayout := Layout(28, [
    Field(0, 1), Field(1, 2), Field(3, 2), Field(5, 6), Field(11, 8), Field(19, 4), Field(23, 1), Field(24, 4)])
  const ITCH_LULD_AUCTION_COLLAR: MapLayout := Layout(35, [
    Field(0, 1), Field(1, 2), Field(3, 2), Field(5, 6), Field(11, 8), Field(19, 4), Field(23, 4), Field(27, 4),
    Field(31, 4)])
  const ITCH_OPERATIONAL_HALT: MapLayout := Layout(21, [
    Field(0, 1), Field(1, 2), Field(3, 2), Field(5, 6), Field(11, 8), Field(19, 1), Field(20, 1)])
  const ITCH_ADD_ORDER: MapLayout := Layout(36, [
    Field(0, 1), Field(1, 2), Field(3, 2), Field(5, 6), Field(11, 8), Field(19, 1), Field(20, 4), Field(24, 8),
    Field(32, 4)])
  const ITCH_ADD_ORDER_WITH_MPID: MapLayout := Layout(40, [
    Field(0, 1), Field(1, 2), Field(3, 2), Field(5, 6), Field(11, 8), Field(19, 1), Field(20, 4), Field(24, 8),
    Field(32, 4), Field(36, 4)])
  const ITCH_ORDER_EXECUTED: MapLayout := Layout(31, [
    Field(0, 1), Field(1, 2), Field(3, 2), Field(5, 6), Field(11, 8), Field(19, 4), Field(23, 8)])
  const ITCH_ORDER_EXECUTED_WITH_PRICE: MapLayout := Layout(36, [
    Field(0, 1), Field(1, 2), Field(3, 2), Field(5, 6), Field(11, 8), Field(19, 4), Field(23, 8), Field(31, 1),
    Field(32, 4)])
  const ITCH_ORDER_CANCEL: MapLayout := Layout(23, [
    Field(0, 1), Field(1, 2), Field(3, 2), Field(5, 6), Field(11, 8), Field(19, 4)])
  const ITCH_ORDER_DELETE: MapLayout := Layout(19, [Field(0, 1), Field(1, 2), Field(3, 2), Field(5, 6), Field(11, 8)])
  const ITCH_ORDER_REPLACE: MapLayout := Layout(35, [
    Field(0, 1), Field(1, 2), Field(3, 2), Field(5, 6), Field(11, 8), Field(19, 8), Field(27, 4), Field(31, 4)])
  const ITCH_TRADE: MapLayout := Layout(44, [
    Field(0, 1), Field(1, 2), Field(3, 2), Field(5, 6), Field(11, 8), Field(19, 1), Field(20, 4), Field(24, 8),
    Field(32, 4), Field(36, 8)])
  const ITCH_CROSS_TRADE: MapLayout := Layout(40, [
    Field(0, 1), Field(1, 2), Field(3, 2), Field(5, 6), Field(11, 4), Field(19, 8), Field(27, 4), Field(31, 8),
    Field(39, 1)])
  const ITCH_BROKEN_TRADE: MapLayout := Layout(19, [Field(0, 1), Field(1, 2), Field(3, 2), Field(5, 6), Field(11, 8)])
  const ITCH_NOII: MapLayout := Layout(50, [
    Field(0, 1), Field(1, 2), Field(3, 2), Field(5, 6), Field(11, 8), Field(19, 8), Field(27, 1), Field(28, 8),
    Field(36, 4), Field(40, 4), Field(44, 4), Field(48, 1), Field(49, 1)])
  const ITCH_RPII: MapLayout := Layout(20, [
    Field(0, 1), Field(1, 2), Field(3, 2), Field(5, 6), Field(11, 8), Field(19, 1)])
  const ITCH_DIRECT_LISTING_WITH_CAPITAL_RAISE_PRICE_DISCOVERY: MapLayout := Layout(48, [
    Field(0, 1), Field(1, 2), Field(3, 2), Field(5, 6), Field(11, 8), Field(19, 1), Field(20, 4), Field(24, 4),
    Field(28, 4), Field(32, 8), Field(40, 4), Field(44, 4)])

  // OUCH messages
  const OUCH_ENTER_ORDER: MapLayout := Layout(47, [
    Field(0, 1), Field(1, 4), Field(5, 1), Field(6, 4), Field(10, 8), Field(18, 8), Field(26, 1), Field(27, 1),
    Field(28, 1), Field(29, 1), Field(30, 1), Field(31, 14), Field(45, 2)])
  const OUCH_REPLACE_ORDER: MapLayout := Layout(40, [
    Field(0, 1), Field(1, 4), Field(5, 4), Field(9, 4), Field(13, 8), Field(21, 1), Field(22, 1), Field(23, 1),
    Field(24, 14), Field(38, 2)])
  const OUCH_CANCEL_ORDER: MapLayout := Layout(9, [Field(0, 1), Field(1, 4), Field(5, 4)])
  const OUCH_MODIFY_ORDER: MapLayout := Layout(10, [Field(0, 1), Field(1, 4), Field(5, 1), Field(6, 4)])
  const OUCH_ACCOUNT_QUERY: MapLayout := Layout(10, [Field(0, 1)])
  const OUCH_SYSTEM_EVENT: MapLayout := Layout(10, [Field(0, 1), Field(1, 8), Field(9, 1)])
  const ORDER_REFERENCE_NUMBER := Field(36, 8)
  const ACCEPTED_APPENDAGE_LENGTH := Field(38, 2)
  const OUCH_ORDER_ACCEPTED: Layout := Layout(64, [
    Field(0, 1), Field(1, 8), Field(9, 4), Field(13, 1), Field(14, 4), Field(18, 8), Field(26, 8), Field(34, 1),
    Field(35, 1), ORDER_REFERENCE_NUMBER, Field(44, 1), Field(45, 1), Field(46, 1), Field(47, 1),
    Field(24, 14), ACCEPTED_APPENDAGE_LENGTH])
  const OUCH_ORDER_REPLACED: MapLayout := Layout(68, [
    Field(0, 1), Field(1, 8), Field(9, 4), Field(13, 4), Field(17, 1), Field(18, 4), Field(22, 8), Field(30, 8),
    Field(38, 1), Field(39, 1), Field(40, 8), Field(48, 1), Field(49, 1), Field(50, 1), Field(51, 1), Field(52, 14),
    Field(66, 2)])
  const OUCH_ORDER_CANCELED: MapLayout := Layout(18, [
    Field(0, 1), Field(1, 8), Field(9, 4), Field(13, 4), Field(17, 1)])
  const OUCH_AIQ_CANCELED: MapLayout := Layout(31, [
    Field(0, 1), Field(1, 8), Field(9, 4), Field(13, 4), Field(17, 1), Field(18, 4), Field(22, 8), Field(30, 1)])
  const OUCH_ORDER_EXECUTED: MapLayout := Layout(36, [
    Field(0, 1), Field(1, 8), Field(9, 4), Field(13, 4), Field(17, 8), Field(25, 1), Field(26, 8), Field(34, 2)])
  const OUCH_BROKEN_TRADE: MapLayout := Layout(36, [
    Field(0, 1), Field(1, 8), Field(9, 4), Field(13, 8), Field(21, 1), Field(22, 14)])
  const OUCH_REJECTED_ORDER: MapLayout := Layout(29, [
    Field(0, 1), Field(1, 8), Field(9, 4), Field(13, 2), Field(15, 14)])
  const OUCH_CANCEL_PENDING: MapLayout := Layout(13, [Field(0, 1), Field(1, 8), Field(9, 4)])
  const OUCH_CANCEL_REJECT: MapLayout := Layout(13, [Field(0, 1), Field(1, 8), Field(9, 4)])
  const OUCH_ORDER_PRIORITY_UPDATE: MapLayout := Layout(30, [
    Field(0, 1), Field(1, 8), Field(9, 4), Field(13, 8), Field(21, 1), Field(22, 8)])
  const OUCH_ORDER_MODIFIED: MapLayout := Layout(30, [
    Field(0, 1), Field(1, 8), Field(9, 4), Field(13, 1), Field(14, 4), Field(22, 8)])
  const OUCH_ORDER_RESTATED: MapLayout := Layout(16, [
    Field(0, 1), Field(1, 8), Field(9, 4), Field(13, 1), Field(14, 2)])
  const OUCH_ACCOUNT_QUERY_RESPONSE: MapLayout := Layout(13, [Field(0, 1), Field(1, 8), Field(9, 4)])

  // SoupBinTCP packets
  const SOUP_DEBUG_PACKET: MapLayout := Layout(3, [Field(0, 2), Field(2, 1)])
  const SOUP_LOGIN_ACCEPTED: MapLayout := Layout(LOGIN_ACCEPTED_LEN, [
    Field(0, 2), Field(2, 1), SESSION, SEQUENCE_NUMBER])
  const SOUP_LOGIN_REJECTED: MapLayout := Layout(4, [Field(0, 2), Field(2, 1), Field(3, 1)])
  const SOUP_SEQUENCED_DATA: MapLayout := Layout(3, [Field(0, 2), Field(2, 1)])
  const SOUP_SERVER_HEARTBEAT: MapLayout := Layout(3, [Field(0, 2), Field(2, 1)])
  const SOUP_END_OF_SESSION: MapLayout := Layout(3, [Field(0, 2), Field(2, 1)])
  const SOUP_LOGIN_REQUEST: MapLayout := Layout(LOGIN_REQUEST_LEN, [
    Field(0, 2), Field(2, 1), USERNAME, PASSWORD, REQUESTED_SESSION, REQUESTED_SEQUENCE_NUMBER])
  const SOUP_UNSEQUENCED_DATA: MapLayout := Layout(3, [Field(0, 2), Field(2, 1)])
  const SOUP_CLIENT_HEARTBEAT: MapLayout := Layout(3, [Field(0, 2), Field(2, 1)])
  const SOUP_LOGOUT_REQUEST: MapLayout := Layout(3, [Field(0, 2), Field(2, 1)])

  lemma {:induction false} AscendingOffsets(l: Layout, i: nat, j: nat)
    requires Ascending(l) && i < j < |l.fields|
    ensures End(l.fields[i]) <= l.fields[j].offset
  {
    assert End(l.fields[j - 1]) <= Limit(l, j - 1);
    if i < j - 1 {
      AscendingOffsets(l, i, j - 1);
    }
  }

  /** Every table that passed the check satisfies the hypotheses of RecordRefinesMap. */
  lemma CheckedLayoutIsMap(l: MapLayout)
    ensures InBounds(l.fields, l.size) && Disjoint(l.fields)
  {
    forall i, j | 0 <= i < j < |l.fields|
      ensures Apart(l.fields[i], l.fields[j])
    {
      AscendingOffsets(l, i, j);
    }
    forall i | 0 <= i < |l.fields|
      ensures Fits(l.fields[i], l.size)
    {
      var last := |l.fields| - 1;
      assert End(l.fields[last]) <= Limit(l, last);
      if i < last {
        AscendingOffsets(l, i, last);
      }
    }
  }

  /** The one table that is not a map. Six pairs of its fields overlap: the client order id (14) with
      symbol (5), price (6), time in force (7), display (8) and order reference number (9), and the
      appendage length (15) with the order reference number. These seven fields can lose a write; the
      other nine are a map. */
  lemma OrderAcceptedLosers(d: Dialect, rec: bytes, i: nat)
    requires |rec| == OUCH_ORDER_ACCEPTED.size && i < |OUCH_ORDER_ACCEPTED.fields|
    ensures InBounds(OUCH_ORDER_ACCEPTED.fields, |rec|)
    ensures (exists ws :: LosesWrite(d, OUCH_ORDER_ACCEPTED.fields, rec, ws, i)) <==> i in {5, 6, 7, 8, 9, 14, 15}
  {
    var fields := OUCH_ORDER_ACCEPTED.fields;
    OverlapsOfOrderAccepted(i);
    LosesWriteIff(d, fields, rec, i);
  }

  lemma OverlapsOfOrderAccepted(i: nat)
    requires i < |OUCH_ORDER_ACCEPTED.fields|
    ensures InBounds(OUCH_ORDER_ACCEPTED.fields, OUCH_ORDER_ACCEPTED.size)
    ensures Alone(OUCH_ORDER_ACCEPTED.fields, i) <==> i !in {5, 6, 7, 8, 9, 14, 15}
  {
    var fields := OUCH_ORDER_ACCEPTED.fields;
    if i in {5, 6, 7, 8, 9} {
      assert !Apart(fields[i], fields[14]);
    } else if i == 14 {
      assert !Apart(fields[14], fields[9]);
    } else if i == 15 {
      assert !Apart(fields[15], fields[9]);
    }
  }
}

/** The rows the dashboards work on. */
module Records {

  /**
   * One call-detail record: the CSV columns Caller, Receiver, Date, Time and
   * Duration. Date is the calendar day as an ordinal (parsing is not modelled);
   * Time is the text of the Time column, compared as a string.
   */
  datatype Call = Call(caller: string, receiver: string, date: int, time: string, duration: nat)

  /** A call together with the Caller_node and Receiver_node columns added to its frame. */
  datatype NodedCall = NodedCall(call: Call, callerNode: nat, receiverNode: nat)

  /** A layout coordinate. */
  datatype Point = Point(x: real, y: real)

  /** The end points of one edge drawn for one call. */
  datatype EdgeTrace = EdgeTrace(start: Point, end: Point)

  /** The two IPDR columns the dashboard reads: IMEI and DEST PORT. */
  datatype Session = Session(imei: string, destPort: nat)
}

/** The fields of a frame, read off its lines: what the readers' accumulators have to hold. */
module Fields {
  import opened Text
  import opened Frames

  /** The fields the readers look for. */
  datatype Name = DataField | EventField | IdField | OtherField

  function NameOf(field: string): Name {
    if field == "data" then DataField
    else if field == "event" then EventField
    else if field == "id" then IdField
    else OtherField
  }

  /** The values a frame gives a field, in order. `bare`: a line without a colon is the field with an empty value. */
  function Values(frame: Frame, name: Name, bare: bool): seq<string> {
    if frame == [] then []
    else
      var before, line := Values(frame[..|frame| - 1], name, bare), frame[|frame| - 1];
      if NameOf(Field(line)) == name && (bare || HasColon(line)) then before + [Value(line)] else before
  }

  /** The last of some values, empty when there is none. */
  function Last(values: seq<string>): string {
    if values == [] then "" else values[|values| - 1]
  }

  /** Data lines put together: a line feed only where something is already there. */
  function Data(values: seq<string>): string {
    if values == [] then ""
    else AppendLine(Data(values[..|values| - 1]), values[|values| - 1])
  }

  function AppendLine(data: string, value: string): string {
    if data == "" then value else data + "\n" + value
  }

  lemma {:induction false} ValuesSnoc(frame: Frame, line: string, name: Name, bare: bool)
    ensures Values(frame + [line], name, bare) ==
            if NameOf(Field(line)) == name && (bare || HasColon(line)) then Values(frame, name, bare) + [Value(line)]
            else Values(frame, name, bare)
  {
    assert (frame + [line])[..|frame|] == frame;
  }

  lemma {:induction false} DataSnoc(values: seq<string>, value: string)
    ensures Data(values + [value]) == AppendLine(Data(values), value)
  {
    assert (values + [value])[..|values|] == values;
  }

  /** Values joined by line feeds. */
  function Join(values: seq<string>): string {
    if values == [] then ""
    else if |values| == 1 then values[0]
    else values[0] + "\n" + Join(values[1..])
  }

  lemma {:induction false} JoinSnoc(values: seq<string>, value: string)
    requires values != []
    ensures Join(values + [value]) == Join(values) + "\n" + value
  {
    assert (values + [value])[1..] == values[1..] + [value];
    if |values| > 1 {
      JoinSnoc(values[1..], value);
    }
  }

  /** When the first data line is not empty, the data is all the lines joined. */
  lemma {:induction false} DataIsJoin(values: seq<string>)
    requires values != [] && values[0] != ""
    ensures Data(values) == Join(values) != ""
  {
    var n := |values| - 1;
    if n == 0 {
      assert Data(values[..0]) == "";
    } else {
      DataIsJoin(values[..n]);
      assert values == values[..n] + [values[n]];
      JoinSnoc(values[..n], values[n]);
    }
  }

  /** Whether a caller that cancels after `at` lines, if at all, may have done so once `read` lines are read. */
  function Reached(at: Option<nat>, read: nat): bool {
    at.Some? && at.value <= read
  }

  /** Cancellation seen at some moment: if the caller ever cancels; once it has happened it stays. */
  method Poll(cancelled: bool, cancels: bool) returns (now: bool)
    requires cancelled ==> cancels
    ensures cancelled ==> now
    ensures now ==> cancels
  {
    var happened: bool := *;
    now := cancelled || (cancels && happened);
  }
}

/**
 * The product "specifications" field: a text blob of lines such as
 * "Screen: 6.1 inch", shown to clients as a list of {name, value} records
 * (SpecificationsSerializer.to_representation).
 */
module Specifications {
  import opened PyStr

  /** One displayed record: the `name` and `value` keys of the dictionary. */
  datatype Entry = Entry(name: string, value: string)

  /**
   * One line becomes a record: the line is split on ':', the name is part 0
   * and the value part 1, or "" when the line has no ':'. Hence the name is
   * the text before the first ':', and the value is the text between the
   * first and the second ':' (anything after a second ':' is dropped).
   */
  function ParseEntry(line: string): (e: Entry)
    ensures ':' !in e.name && ':' !in e.value
    ensures ':' !in line ==> e.name == line && e.value == ""
    ensures ':' in line ==>
      && |e.name| < |line| && line[..|e.name|] == e.name && line[|e.name|] == ':'
      && var after := line[|e.name| + 1..];
         && |e.value| <= |after| && after[..|e.value|] == e.value
         && (|e.value| == |after| || after[|e.value|] == ':')
  {
    var parts := Split(line, ":");
    SplitCharHead(line, ':');
    SplitCharPartsAvoidSep(line, ':');
    if |parts| > 1 then
      var after := line[|parts[0]| + 1..];
      SplitCharHead(after, ':');
      assert parts[1] == Split(after, ":")[0];
      Entry(parts[0], parts[1])
    else
      Entry(parts[0], "")
  }

  /**
   * The displayed list: one record per '\n'-separated line of `value`, in
   * order, so there is one more record than there are '\n' characters, and
   * the empty text gives a single record with empty name and value.
   */
  method ToRepresentation(value: string) returns (res: seq<Entry>)
    ensures |res| == CountChar(value, '\n') + 1 == |Split(value, "\n")|
    ensures forall i :: 0 <= i < |res| ==> res[i] == ParseEntry(Split(value, "\n")[i])
    ensures value == "" ==> res == [Entry("", "")]
  {
    var lines := Split(value, "\n");
    SplitCharCount(value, '\n');
    res := [];
    for i := 0 to |lines|
      invariant |res| == i
      invariant forall j :: 0 <= j < i ==> res[j] == ParseEntry(lines[j])
    {
      res := res + [ParseEntry(lines[i])];
    }
  }
}

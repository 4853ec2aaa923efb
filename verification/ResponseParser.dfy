/** WpaResponseParser: reading the key=value lines of a response into a table of properties. */
module ResponseParser {
  import opened Wrappers
  import opened Text
  import opened HashTable
  import opened Sequences

  /** The value of a property and the index of its key, if it had one. */
  datatype Entry = Entry(value: string, index: Option<nat>)

  type Properties = map<string, Entry>

  datatype WpaValuePresence = Required | Optional

  datatype WpaKeyValuePair = WpaKeyValuePair(key: string, presence: WpaValuePresence)

  // ---------- One line ----------

  /** Unreadable stands for the exception that std::stoul throws. */
  datatype Line = Skipped | Property(key: string, entry: Entry) | Unreadable

  /** The text taken for the index. When the first ']' comes before the first '[' the length wraps around and
      everything after the '[' is taken. */
  function IndexText(key: string): string
    requires Find(key, '[') < |key| && Find(key, ']') < |key|
  {
    var start, end := Find(key, '['), Find(key, ']');
    if end > start then key[start + 1..end] else key[start + 1..]
  }

  function ParseKey(key: string, value: string): Line {
    if Find(key, '[') == |key| || Find(key, ']') == |key| then Property(key, Entry(value, None))
    else
      match Stoul(IndexText(key))
      case None => Unreadable
      case Some(index) => Property(key[..Find(key, '[')], Entry(value, Some(index)))
  }

  function ParseLine(line: string): Line {
    var pieces := Split(line, '=');
    if |pieces| < 2 || pieces[0] == "" then Skipped else ParseKey(pieces[0], pieces[1])
  }

  /** The value ends at a second delimiter, and whatever follows is dropped. */
  lemma LineIsKeyAndValue(key: string, value: string, rest: string)
    requires key != "" && '=' !in key && '=' !in value && (rest == "" || rest[0] == '=')
    ensures ParseLine(key + "=" + value + rest) == ParseKey(key, value)
  {
    var line, tail := key + "=" + value + rest, value + rest;
    assert line[..|key|] == key && line[|key|] == '=';
    FindIs(line, '=', |key|);
    assert line[|key| + 1..] == tail;
    if rest == "" {
      FindNone(tail, '=');
      assert tail == value;
    } else {
      assert tail[..|value|] == value && tail[|value|] == '=';
      FindIs(tail, '=', |value|);
    }
    assert SplitAll(tail, '=')[0] == value;
    assert SplitAll(line, '=') == [key] + SplitAll(tail, '=');
  }

  /** The malformed lines are those without a delimiter and those that start with one. */
  lemma MalformedLines(line: string)
    ensures ParseLine(line) == Skipped <==> '=' !in line || line[0] == '='
  {
    FindNone(line, '=');
    var i := Find(line, '=');
    if i < |line| {
      assert SplitAll(line, '=') == [line[..i]] + SplitAll(line[i + 1..], '=');
      assert i == 0 <==> line[0] == '=';
    }
  }

  // ---------- All lines ----------

  function ParseEach(lines: seq<string>): (parsed: seq<Line>)
    ensures |parsed| == |lines|
  {
    Transform(ParseLine, lines)
  }

  lemma ParseEachAt(lines: seq<string>, i: nat)
    requires i < |lines|
    ensures ParseEach(lines)[i] == ParseLine(lines[i])
  {
    TransformAt(ParseLine, lines, i);
  }

  predicate IsParsed(line: string, parsed: Line) { parsed == ParseLine(line) }

  /** `parsed` is `lines`, each line parsed. */
  ghost predicate AreParsed(lines: seq<string>, parsed: seq<Line>) {
    && |parsed| == |lines|
    && forall i {:trigger IsParsed(lines[i], parsed[i])} :: 0 <= i < |lines| ==> IsParsed(lines[i], parsed[i])
  }

  lemma EachIsParsed(lines: seq<string>)
    ensures AreParsed(lines, ParseEach(lines))
  {
    forall i {:trigger IsParsed(lines[i], ParseEach(lines)[i])} | 0 <= i < |lines|
      ensures IsParsed(lines[i], ParseEach(lines)[i])
    {
      ParseEachAt(lines, i);
    }
  }

  /** The lines of a payload. */
  function Parsed(payload: string): seq<Line> { ParseEach(Split(payload, '\n')) }

  /** The table after some lines, none of them unreadable. */
  function Fill(before: Properties, parsed: seq<Line>): Properties {
    if parsed == [] then before
    else
      var n := |parsed| - 1;
      var m := Fill(before, parsed[..n]);
      match parsed[n]
      case Property(key, entry) => m[key := entry]
      case _ => m
  }

  lemma FillNext(before: Properties, parsed: seq<Line>, i: nat)
    requires i < |parsed|
    ensures Fill(before, parsed[..i + 1])
         == if parsed[i].Property? then Fill(before, parsed[..i])[parsed[i].key := parsed[i].entry]
            else Fill(before, parsed[..i])
  {
    assert parsed[..i + 1][..i] == parsed[..i];
  }

  /** The number of lines before the first unreadable one. */
  function Readable(parsed: seq<Line>): (n: nat)
    ensures n <= |parsed|
    ensures forall i :: 0 <= i < n ==> !parsed[i].Unreadable?
    ensures n < |parsed| ==> parsed[n].Unreadable?
  {
    if parsed == [] || parsed[0].Unreadable? then 0 else 1 + Readable(parsed[1..])
  }

  predicate IsFor(line: Line, key: string) { line.Property? && line.key == key }

  /** Line `i` is the last one for `key`. */
  ghost predicate IsLastFor(parsed: seq<Line>, key: string, i: nat) {
    i < |parsed| && IsFor(parsed[i], key) && forall j :: i < j < |parsed| ==> !IsFor(parsed[j], key)
  }

  /** The last line for each index-stripped key wins ... */
  lemma {:induction false} LastLineWins(before: Properties, parsed: seq<Line>, key: string, i: nat)
    requires IsLastFor(parsed, key, i)
    ensures key in Fill(before, parsed) && Fill(before, parsed)[key] == parsed[i].entry
    decreases |parsed|
  {
    var n := |parsed| - 1;
    if i < n {
      assert !IsFor(parsed[n], key);
      LastLineWins(before, parsed[..n], key, i);
    }
  }

  /** ... and a key without lines is as it was before. */
  lemma {:induction false} KeyWithoutLines(before: Properties, parsed: seq<Line>, key: string)
    requires forall i :: 0 <= i < |parsed| ==> !IsFor(parsed[i], key)
    ensures key in Fill(before, parsed) <==> key in before
    ensures key in before ==> Fill(before, parsed)[key] == before[key]
  {
    if parsed != [] {
      var n := |parsed| - 1;
      assert !IsFor(parsed[n], key);
      KeyWithoutLines(before, parsed[..n], key);
    }
  }

  lemma {:induction false} FillAppend(before: Properties, a: seq<Line>, b: seq<Line>)
    ensures Fill(before, a + b) == Fill(Fill(before, a), b)
    decreases |b|
  {
    if b == [] {
      assert a + b == a;
    } else {
      var n := |b| - 1;
      assert (a + b)[..|a| + n] == a + b[..n] && (a + b)[|a| + n] == b[n];
      FillAppend(before, a, b[..n]);
    }
  }

  lemma {:induction false} ReadableAppend(a: seq<Line>, b: seq<Line>)
    ensures Readable(a + b) == if Readable(a) < |a| then Readable(a) else |a| + Readable(b)
  {
    if a == [] {
      assert a + b == b;
    } else if !a[0].Unreadable? {
      assert (a + b)[0] == a[0] && (a + b)[1..] == a[1..] + b;
      ReadableAppend(a[1..], b);
    }
  }

  /** The table that a payload leaves when the lines before its first unreadable one are loaded. */
  function Load(before: Properties, parsed: seq<Line>): Properties { Fill(before, parsed[..Readable(parsed)]) }

  lemma FillPrefix(before: Properties, a: seq<Line>, b: seq<Line>, n: nat)
    requires |a| <= n <= |a| + |b|
    ensures Fill(before, (a + b)[..n]) == Fill(Fill(before, a), b[..n - |a|])
  {
    PrefixOfSum(a, b, n);
    FillAppend(before, a, b[..n - |a|]);
  }

  lemma LoadStops(before: Properties, a: seq<Line>, b: seq<Line>)
    requires Readable(a) < |a|
    ensures Load(before, a + b) == Load(before, a)
  {
    ReadableAppend(a, b);
    PrefixOfFirst(a, b, Readable(a));
  }

  lemma LoadContinues(before: Properties, a: seq<Line>, b: seq<Line>)
    requires Readable(a) == |a|
    ensures Load(before, a + b) == Load(Fill(before, a), b)
  {
    ReadableAppend(a, b);
    FillPrefix(before, a, b, Readable(a + b));
  }

  lemma LoadAppend(before: Properties, a: seq<Line>, b: seq<Line>)
    ensures Load(before, a + b) == if Readable(a) < |a| then Load(before, a) else Load(Fill(before, a), b)
  {
    if Readable(a) < |a| {
      LoadStops(before, a, b);
    } else {
      LoadContinues(before, a, b);
    }
  }

  lemma ParseEachAppend(a: seq<string>, b: seq<string>)
    ensures ParseEach(a + b) == ParseEach(a) + ParseEach(b)
  {
    TransformAppend(ParseLine, a, b);
  }

  lemma MalformedIsSkipped(before: Properties, line: string)
    requires '=' !in line || line[0] == '='
    ensures Readable(ParseEach([line])) == 1 && Fill(before, ParseEach([line])) == before
  {
    MalformedLines(line);
    assert ParseEach([line]) == [Skipped];
  }

  /** Malformed lines change nothing, wherever they stand in the payload: the table loaded up to the first unreadable
      line is the same without them, and so is whether all lines are readable. */
  lemma MalformedLinesChangeNothing(before: Properties, front: seq<string>, line: string, back: seq<string>)
    requires '=' !in line || line[0] == '='
    ensures var parsed, fewer := ParseEach(front + [line] + back), ParseEach(front + back);
            && Load(before, parsed) == Load(before, fewer)
            && (Readable(parsed) == |parsed| <==> Readable(fewer) == |fewer|)
  {
    var a, x, b := ParseEach(front), ParseEach([line]), ParseEach(back);
    Associate(front, [line], back);
    ParseEachAppend(front, [line] + back);
    ParseEachAppend([line], back);
    ParseEachAppend(front, back);
    MalformedIsSkipped(Fill(before, a), line);
    LoadAppend(before, a, x + b);
    LoadAppend(Fill(before, a), x, b);
    LoadAppend(before, a, b);
    ReadableAppend(a, x + b);
    ReadableAppend(x, b);
    ReadableAppend(a, b);
  }

  // ---------- The parser ----------

  /** The pairs whose key has not been found, in order. */
  function Missing(pairs: seq<WpaKeyValuePair>, found: set<string>): (rest: seq<WpaKeyValuePair>)
    ensures forall p :: p in rest <==> p in pairs && p.key !in found
  {
    if pairs == [] then []
    else if pairs[0].key in found then Missing(pairs[1..], found)
    else [pairs[0]] + Missing(pairs[1..], found)
  }

  /** The body of the loop over the lines, up to the store into the table. */
  method ReadLine(line: string) returns (result: Line)
    ensures result == ParseLine(line)
  {
    var pieces := Split(line, '=');
    if |pieces| < 2 {
      return Skipped;
    }
    var key, value, index := pieces[0], pieces[1], None;
    if key == "" {
      return Skipped;
    }
    var indexStart := Find(key, '[');
    if indexStart < |key| {
      var indexEnd := Find(key, ']');
      if indexEnd < |key| {
        index := Stoul(IndexText(key));
        if index.None? {
          return Unreadable;
        }
        key := key[..indexStart];
      }
    }
    return Property(key, Entry(value, index));
  }

  method ReadLineAt(lines: seq<string>, i: nat, ghost parsed: seq<Line>) returns (result: Line)
    requires AreParsed(lines, parsed) && i < |lines|
    ensures result == parsed[i]
  {
    assert IsParsed(lines[i], parsed[i]);
    result := ReadLine(lines[i]);
  }

  class WpaResponseParser {
    const responsePayload: string
    var propertiesToParse: seq<WpaKeyValuePair>
    var properties: Properties

    constructor (responsePayload: string, propertiesToParse: seq<WpaKeyValuePair>)
      ensures this.responsePayload == responsePayload && this.propertiesToParse == propertiesToParse
      ensures properties == map[]
    {
      this.responsePayload := responsePayload;
      this.propertiesToParse := propertiesToParse;
      properties := map[];
    }

    /** None when an index is unreadable: the exception leaves the lines before it in the table. Without
        properties to parse nothing is read; otherwise all properties of the payload are, asked for or not, and
        the result is true even when some of those asked for are missing. */
    method TryParseProperties() returns (result: Option<bool>)
      modifies this
      ensures old(propertiesToParse) == [] ==>
                result == Some(true) && propertiesToParse == [] && properties == old(properties)
      ensures old(propertiesToParse) != [] ==>
                var parsed := Parsed(responsePayload);
                && properties == Load(old(properties), parsed)
                && (Readable(parsed) < |parsed| ==> result == None && propertiesToParse == old(propertiesToParse))
                && (Readable(parsed) == |parsed| ==>
                      result == Some(true) && propertiesToParse == Missing(old(propertiesToParse), properties.Keys))
    {
      if propertiesToParse == [] {
        return Some(true);
      }
      var lines := Split(responsePayload, '\n');
      EachIsParsed(lines);
      var readable := LoadLines(lines, ParseEach(lines));
      if !readable {
        return None;
      }
      propertiesToParse := Missing(propertiesToParse, properties.Keys);
      return Some(true);
    }

    /** The loop over the lines, which an unreadable one ends. */
    method LoadLines(lines: seq<string>, ghost parsed: seq<Line>) returns (readable: bool)
      requires AreParsed(lines, parsed)
      modifies this`properties
      ensures readable <==> Readable(parsed) == |parsed|
      ensures properties == Load(old(properties), parsed)
    {
      for i := 0 to |lines|
        invariant properties == Fill(old(properties), parsed[..i])
        invariant forall j :: 0 <= j < i ==> !parsed[j].Unreadable?
      {
        FillNext(old(properties), parsed, i);
        var line := ReadLineAt(lines, i, parsed);
        if line.Skipped? {
          continue;
        }
        if line.Unreadable? {
          return false;
        }
        properties := properties[line.key := line.entry];
      }
      return true;
    }
  }

  // ---------- Round trip ----------

  function KeyText(key: string, index: Option<nat>): string {
    if index.Some? then key + "[" + Decimal(index.value) + "]" else key
  }

  function PrintLine(key: string, entry: Entry): string { KeyText(key, entry.index) + "=" + entry.value }

  function PrintLines(m: Properties, order: seq<string>): (lines: seq<string>)
    requires forall k :: k in order ==> k in m
    ensures |lines| == |order| && forall i :: 0 <= i < |order| ==> lines[i] == PrintLine(order[i], m[order[i]])
  {
    seq(|order|, i requires 0 <= i < |order| => PrintLine(order[i], m[order[i]]))
  }

  /** A table as a payload, its lines in the given order. */
  function Print(m: Properties, order: seq<string>): string
    requires forall k :: k in order ==> k in m
  {
    Join(PrintLines(m, order), '\n')
  }

  predicate IsPlainKey(key: string) { key != "" && '=' !in key && '\n' !in key && '[' !in key && ']' !in key }

  predicate IsPrintable(m: Properties) {
    forall k :: k in m ==>
      && IsPlainKey(k) && '=' !in m[k].value && '\n' !in m[k].value
      && (m[k].index.Some? ==> m[k].index.value < ULONG_MODULUS)
  }

  lemma DecimalIsPlain(n: nat, c: char)
    requires !IsDigit(c)
    ensures c !in Decimal(n)
  {
  }

  lemma KeyTextReadBack(key: string, index: Option<nat>, value: string)
    requires IsPlainKey(key) && (index.Some? ==> index.value < ULONG_MODULUS)
    ensures ParseKey(KeyText(key, index), value) == Property(key, Entry(value, index))
  {
    var text := KeyText(key, index);
    if index.Some? {
      var number := Decimal(index.value);
      DecimalIsPlain(index.value, ']');
      assert text[..|key|] == key && text[|key|] == '[';
      FindIs(text, '[', |key|);
      var end := |key| + 1 + |number|;
      assert text[..end] == key + "[" + number && text[end] == ']';
      FindIs(text, ']', end);
      assert IndexText(text) == number;
      StoulDecimal(index.value);
    } else {
      FindNone(text, '[');
    }
  }

  /** A key whose first ']' stands before its first '[' is still read: the index is whatever follows the '['. */
  lemma BracketsReversed(before: string, between: string, index: string, value: string)
    requires '[' !in before && ']' !in before && '[' !in between
    ensures ParseKey(before + "]" + between + "[" + index, value)
         == match Stoul(index)
            case None => Unreadable
            case Some(n) => Property(before + "]" + between, Entry(value, Some(n)))
  {
    var name := before + "]" + between;
    var key := name + "[" + index;
    assert key[..|before|] == before && key[|before|] == ']';
    assert key[..|name|] == name && key[|name|] == '[' && key[|name| + 1..] == index;
    FindIs(key, ']', |before|);
    FindIs(key, '[', |name|);
  }

  lemma KeyTextIsPlain(key: string, index: Option<nat>, c: char)
    requires c !in key && c != '[' && c != ']' && !IsDigit(c)
    ensures c !in KeyText(key, index)
  {
    if index.Some? {
      DecimalIsPlain(index.value, c);
    }
  }

  lemma LineIsOneLine(key: string, entry: Entry)
    requires IsPlainKey(key) && '\n' !in entry.value
    ensures '\n' !in PrintLine(key, entry) && PrintLine(key, entry) != ""
  {
    KeyTextIsPlain(key, entry.index, '\n');
  }

  lemma LineReadBack(key: string, entry: Entry)
    requires IsPlainKey(key) && '=' !in entry.value && '\n' !in entry.value
    requires entry.index.Some? ==> entry.index.value < ULONG_MODULUS
    ensures ParseLine(PrintLine(key, entry)) == Property(key, entry)
  {
    var text := KeyText(key, entry.index);
    KeyTextIsPlain(key, entry.index, '=');
    KeyTextReadBack(key, entry.index, entry.value);
    LineIsKeyAndValue(text, entry.value, "");
    assert PrintLine(key, entry) == text + "=" + entry.value + "";
  }

  lemma EachReadBack(m: Properties, order: seq<string>)
    requires IsPrintable(m) && forall k :: k in order ==> k in m
    ensures var parsed := ParseEach(PrintLines(m, order));
            forall i :: 0 <= i < |order| ==> parsed[i] == Property(order[i], m[order[i]])
    ensures forall line :: line in PrintLines(m, order) ==> '\n' !in line && line != ""
  {
    forall i | 0 <= i < |order|
      ensures ParseEach(PrintLines(m, order))[i] == Property(order[i], m[order[i]])
      ensures '\n' !in PrintLine(order[i], m[order[i]]) && PrintLine(order[i], m[order[i]]) != ""
    {
      assert order[i] in m;
      LineReadBack(order[i], m[order[i]]);
      LineIsOneLine(order[i], m[order[i]]);
      ParseEachAt(PrintLines(m, order), i);
    }
  }

  lemma {:induction false} FillOfProperties(m: Properties, order: seq<string>, parsed: seq<Line>)
    requires |parsed| == |order| && forall k :: k in order ==> k in m
    requires forall i :: 0 <= i < |order| ==> parsed[i] == Property(order[i], m[order[i]])
    ensures Fill(map[], parsed) == map k | k in order :: m[k]
  {
    if order != [] {
      var n := |order| - 1;
      FillOfProperties(m, order[..n], parsed[..n]);
      assert order == order[..n] + [order[n]];
    }
  }

  /** The lines of a printed table are those that were printed. */
  lemma SplitPrinted(lines: seq<string>)
    requires forall line :: line in lines ==> '\n' !in line && line != ""
    ensures Split(Join(lines, '\n'), '\n') == lines
  {
    if lines != [] {
      assert lines[0] in lines;
      SplitJoin(lines, '\n');
      JoinEmptyText(lines, '\n');
    }
  }

  predicate ArePropertiesOf(parsed: seq<Line>, m: Properties, order: seq<string>)
    requires forall k :: k in order ==> k in m
  {
    |parsed| == |order| && forall i :: 0 <= i < |order| ==> parsed[i] == Property(order[i], m[order[i]])
  }

  lemma PrintedIsParsed(m: Properties, order: seq<string>)
    requires IsPrintable(m) && forall k :: k in order ==> k in m
    ensures ArePropertiesOf(Parsed(Print(m, order)), m, order)
  {
    EachReadBack(m, order);
    SplitPrinted(PrintLines(m, order));
  }

  lemma LoadedTable(parsed: seq<Line>, m: Properties, order: seq<string>)
    requires Enumerates(order, m.Keys) && ArePropertiesOf(parsed, m, order)
    ensures Readable(parsed) == |parsed| && Fill(map[], parsed) == m
  {
    FillOfProperties(m, order, parsed);
    assert m == map k | k in order :: m[k];
  }

  /** Printing any table of plain keys, in any order, and parsing the text gives the table back. */
  lemma RoundTrip(m: Properties, order: seq<string>)
    requires IsPrintable(m) && Enumerates(order, m.Keys)
    ensures Readable(Parsed(Print(m, order))) == |Parsed(Print(m, order))|
    ensures Fill(map[], Parsed(Print(m, order))) == m
  {
    PrintedIsParsed(m, order);
    LoadedTable(Parsed(Print(m, order)), m, order);
  }
}

/** The text commands the command line sends to the broker: printing, trimming and parsing. */
module BrokerCommands {
  import opened Wrappers

  const NAME_CHARS: nat := 32

  // ---------------------------------------------------------------- decimal numbers

  datatype Kind = Unsigned32 | Signed32

  predicate Fits(kind: Kind, value: int) {
    match kind
    case Unsigned32 => 0 <= value < 0x1_0000_0000
    case Signed32 => -0x8000_0000 <= value < 0x8000_0000
  }

  predicate IsDigit(c: char) {
    '0' <= c <= '9'
  }

  function PrintNat(n: nat): (s: string)
    ensures s != "" && forall c | c in s :: IsDigit(c)
  {
    var digit := '0' + (n % 10) as char;
    if n < 10 then [digit] else PrintNat(n / 10) + [digit]
  }

  function Print(value: int): string {
    if value < 0 then "-" + PrintNat(-value) else PrintNat(value)
  }

  function Value(digits: string): nat
    requires forall c | c in digits :: IsDigit(c)
  {
    if digits == "" then 0
    else
      var last := digits[|digits| - 1];
      assert last in digits && IsDigit(last) && last >= '0';
      10 * Value(digits[..|digits| - 1]) + (last as int - '0' as int)
  }

  predicate Digits(s: string) {
    s != "" && forall c | c in s :: IsDigit(c)
  }

  /** Reads a whole word as a number: digits only, a minus sign only where signed, nothing out of range. */
  function ParseNumber(kind: Kind, word: string): Option<int> {
    var negative := kind.Signed32? && word != "" && word[0] == '-';
    var digits := if negative then word[1..] else word;
    if !Digits(digits) then None
    else
      var value: int := if negative then -(Value(digits) as int) else Value(digits);
      if Fits(kind, value) then Some(value) else None
  }

  lemma {:induction false} ValuePrintNat(n: nat)
    ensures Value(PrintNat(n)) == n
    decreases n
  {
    var digit := '0' + (n % 10) as char;
    if n < 10 {
      assert Value([digit]) == 10 * Value("") + (digit as int - '0' as int);
    } else {
      ValuePrintNat(n / 10);
      assert PrintNat(n)[..|PrintNat(n)| - 1] == PrintNat(n / 10);
    }
  }

  lemma ParsePrint(kind: Kind, value: int)
    requires Fits(kind, value)
    ensures ParseNumber(kind, Print(value)) == Some(value)
  {
    if value < 0 {
      ValuePrintNat(-value);
      assert Print(value)[1..] == PrintNat(-value);
    } else {
      ValuePrintNat(value);
      assert IsDigit(PrintNat(value)[0]);
    }
  }

  // ---------------------------------------------------------------- trimming

  predicate Trailing(c: char) {
    c == '\r' || c == '\n' || c == ' '
  }

  function TrimEnd(s: string): string {
    if s != "" && Trailing(s[|s| - 1]) then TrimEnd(s[..|s| - 1]) else s
  }

  function SkipSpaces(s: string): string {
    if s != "" && s[0] == ' ' then SkipSpaces(s[1..]) else s
  }

  function Trim(s: string): string {
    SkipSpaces(TrimEnd(s))
  }

  method TrimCommand(text: string) returns (value: string)
    ensures value == Trim(text)
  {
    value := text;
    while value != "" && Trailing(value[|value| - 1])
      invariant TrimEnd(value) == TrimEnd(text)
      decreases |value|
    {
      value := value[..|value| - 1];
    }
    while value != "" && value[0] == ' '
      invariant SkipSpaces(value) == Trim(text)
      decreases |value|
    {
      value := value[1..];
    }
  }

  lemma {:induction false} TrimEndAppend(a: string, b: string)
    ensures TrimEnd(a + b) == if TrimEnd(b) == "" then TrimEnd(a) else a + TrimEnd(b)
    decreases |b|
  {
    if b == "" {
      assert a + b == a;
    } else if Trailing(b[|b| - 1]) {
      assert (a + b)[..|a + b| - 1] == a + b[..|b| - 1];
      TrimEndAppend(a, b[..|b| - 1]);
    }
  }

  // ---------------------------------------------------------------- words

  function WordLength(s: string): (n: nat)
    ensures n <= |s| && (n < |s| ==> s[n] == ' ')
    ensures forall k | 0 <= k < n :: s[k] != ' '
  {
    if s == "" || s[0] == ' ' then 0 else 1 + WordLength(s[1..])
  }

  lemma SkipShrinks(s: string)
    ensures |SkipSpaces(s)| <= |s| && (SkipSpaces(s) != "" ==> SkipSpaces(s)[0] != ' ')
  {
  }

  /** At most `limit` words, and the text after the last of them. */
  datatype Split = Split(words: seq<string>, rest: string)

  function SplitWords(text: string, limit: nat): Split
    decreases limit
  {
    if limit == 0 then Split([], text)
    else
      var trimmed := SkipSpaces(text);
      if trimmed == "" then Split([], trimmed)
      else
        var n := WordLength(trimmed);
        var tail := SplitWords(trimmed[n..], limit - 1);
        Split([trimmed[..n]] + tail.words, tail.rest)
  }

  /** Moves a cursor over spaces. */
  method SkipFrom(text: string, from: nat) returns (cursor: nat)
    requires from <= |text|
    ensures from <= cursor <= |text| && text[cursor..] == SkipSpaces(text[from..])
  {
    cursor := from;
    while cursor < |text| && text[cursor] == ' '
      invariant from <= cursor <= |text| && SkipSpaces(text[cursor..]) == SkipSpaces(text[from..])
    {
      assert text[cursor..][1..] == text[cursor + 1..];
      cursor := cursor + 1;
    }
  }

  /** Moves a cursor to the end of the word it is on. */
  method WordEnd(text: string, begin: nat) returns (cursor: nat)
    requires begin <= |text|
    ensures begin <= cursor <= |text| && cursor == begin + WordLength(text[begin..])
  {
    cursor := begin;
    while cursor < |text| && text[cursor] != ' '
      invariant begin <= cursor <= |text|
      invariant WordLength(text[begin..]) == cursor - begin + WordLength(text[cursor..])
    {
      assert text[cursor..][1..] == text[cursor + 1..];
      cursor := cursor + 1;
    }
  }

  /** The cursor loop over the text. */
  method SplitBrokerWords(text: string, limit: nat) returns (words: seq<string>, cursor: nat)
    ensures cursor <= |text| && Split(words, text[cursor..]) == SplitWords(text, limit)
  {
    hide SkipSpaces, WordLength;
    words, cursor := [], 0;
    assert text[0..] == text;
    assert [] + SplitWords(text, limit).words == SplitWords(text, limit).words;
    while cursor < |text| && |words| < limit
      invariant cursor <= |text| && |words| <= limit
      invariant var tail := SplitWords(text[cursor..], limit - |words|);
                SplitWords(text, limit) == Split(words + tail.words, tail.rest)
      decreases limit - |words|, |text| - cursor
    {
      ghost var tail := SplitWords(text[cursor..], limit - |words|);
      var begin := SkipFrom(text, cursor);
      if begin >= |text| {
        assert text[begin..] == "" && words + [] == words;
        cursor := begin;
        break;
      }
      cursor := WordEnd(text, begin);
      assert text[begin..][..cursor - begin] == text[begin..cursor];
      assert text[begin..][cursor - begin..] == text[cursor..];
      ghost var more := SplitWords(text[cursor..], limit - |words| - 1);
      assert tail == Split([text[begin..cursor]] + more.words, more.rest);
      assert words + ([text[begin..cursor]] + more.words) == (words + [text[begin..cursor]]) + more.words;
      words := words + [text[begin..cursor]];
    }
    if cursor >= |text| && |words| < limit {
      NothingLeft(limit - |words|);
      assert text[cursor..] == "" && words + [] == words;
    } else {
      assert words + [] == words;
    }
  }

  lemma NothingLeft(limit: nat)
    ensures SplitWords("", limit) == Split([], "")
  {
  }

  ghost predicate NoSpace(w: string) {
    forall k | 0 <= k < |w| :: w[k] != ' '
  }

  lemma {:induction false} WordAt(w: string, more: string)
    requires NoSpace(w)
    ensures WordLength(w + " " + more) == |w|
    decreases |w|
  {
    if w == "" {
      assert w + " " + more == " " + more;
    } else {
      assert (w + " " + more)[1..] == w[1..] + " " + more;
      assert (w + " " + more)[0] == w[0];
      WordAt(w[1..], more);
    }
  }

  lemma LeadingSpace(text: string)
    ensures SkipSpaces(" " + text) == SkipSpaces(text)
  {
  }

  // ---------------------------------------------------------------- commands

  /** A command's numbers and its display name. */
  datatype Fields = Fields(values: seq<int>, name: string)

  ghost predicate AllFit(kinds: seq<Kind>, values: seq<int>) {
    |values| == |kinds| && forall i | 0 <= i < |kinds| :: Fits(kinds[i], values[i])
  }

  function Join(values: seq<int>): string {
    if values == [] then "" else Print(values[0]) + " " + Join(values[1..])
  }

  function PrintCommand(prefix: string, fields: Fields): string {
    prefix + Join(fields.values) + fields.name
  }

  function ParseNumbers(kinds: seq<Kind>, words: seq<string>): Option<seq<int>>
    requires |words| == |kinds|
  {
    if kinds == [] then Some([])
    else
      var first, others := ParseNumber(kinds[0], words[0]), ParseNumbers(kinds[1..], words[1..]);
      if first.None? || others.None? then None else Some([first.value] + others.value)
  }

  ghost function Prepended(values: seq<int>, others: Option<seq<int>>): Option<seq<int>> {
    if others.None? then None else Some(values + others.value)
  }

  /** A fixed-size name field keeps what fits. */
  function KeptName(name: string): string {
    if |name| < NAME_CHARS then name else name[..NAME_CHARS - 1]
  }

  function ParseCommand(prefix: string, kinds: seq<Kind>, command: string): Option<Fields> {
    if !(prefix <= command) then None
    else
      var split := SplitWords(command[|prefix|..], |kinds|);
      if |split.words| != |kinds| then None
      else
        var name, values := SkipSpaces(split.rest), ParseNumbers(kinds, split.words);
        if name == "" || values.None? then None else Some(Fields(values.value, KeptName(name)))
  }

  method ParseBrokerCommand(prefix: string, kinds: seq<Kind>, command: string) returns (fields: Option<Fields>)
    ensures fields == ParseCommand(prefix, kinds, command)
  {
    if !(prefix <= command) { return None; }
    var payload := command[|prefix|..];
    var words, offset := SplitBrokerWords(payload, |kinds|);
    if |words| != |kinds| { return None; }
    offset := SkipFrom(payload, offset);
    if offset >= |payload| { return None; }
    var values: seq<int> := [];
    assert kinds[0..] == kinds && words[0..] == words;
    assert ParseNumbers(kinds, words).Some? ==>
           [] + ParseNumbers(kinds, words).value == ParseNumbers(kinds, words).value;
    for i := 0 to |kinds|
      invariant |values| == i
      invariant Prepended(values, ParseNumbers(kinds[i..], words[i..])) == ParseNumbers(kinds, words)
    {
      assert kinds[i..][1..] == kinds[i + 1..] && words[i..][1..] == words[i + 1..];
      var value := ParseNumber(kinds[i], words[i]);
      if value.None? { return None; }
      ghost var others := ParseNumbers(kinds[i + 1..], words[i + 1..]);
      if others.Some? {
        assert values + ([value.value] + others.value) == (values + [value.value]) + others.value;
      }
      values := values + [value.value];
    }
    assert values + [] == values;
    return Some(Fields(values, KeptName(payload[offset..])));
  }

  // ---------------------------------------------------------------- round trips

  lemma PrintHasNoSpace(value: int)
    ensures Print(value) != "" && NoSpace(Print(value)) && !Trailing(Print(value)[|Print(value)| - 1])
    ensures Print(value)[0] != ' '
  {
    var digits := PrintNat(if value < 0 then -value else value);
    forall k | 0 <= k < |digits| ensures IsDigit(digits[k]) {
      assert digits[k] in digits;
    }
  }

  lemma SplitFirst(w: string, more: string, limit: nat)
    requires w != "" && NoSpace(w) && limit > 0
    ensures var tail := if limit == 1 then Split([], " " + more) else SplitWords(more, limit - 1);
            SplitWords(w + " " + more, limit) == Split([w] + tail.words, tail.rest)
  {
    hide SkipSpaces, WordLength;
    var text := w + " " + more;
    assert text[0] == w[0];
    NothingSkipped(text);
    WordAt(w, more);
    assert text[..|w|] == w && text[|w|..] == " " + more;
    SplitAfterSpace(more, limit - 1);
  }

  lemma ParseFirst(kinds: seq<Kind>, values: seq<int>, words: seq<string>)
    requires AllFit(kinds, values) && values != [] && |words| == |kinds| && words[0] == Print(values[0])
    requires ParseNumbers(kinds[1..], words[1..]) == Some(values[1..])
    ensures ParseNumbers(kinds, words) == Some(values)
  {
    hide ParseNumber, Print, Fits;
    ParsePrint(kinds[0], values[0]);
    assert [values[0]] + values[1..] == values;
  }

  /** Splitting what was joined gives the printed numbers back, and leaves what follows the last of them. */
  lemma {:induction false} SplitJoined(values: seq<int>, kinds: seq<Kind>, name: string)
    requires AllFit(kinds, values) && values != []
    ensures var split := SplitWords(Join(values) + name, |values|);
            && |split.words| == |values|
            && ParseNumbers(kinds, split.words) == Some(values)
            && split.rest == " " + name
    decreases |values|
  {
    hide Print, ParseNumber, Fits, SplitWords;
    var w, more := Print(values[0]), Join(values[1..]) + name;
    assert Join(values) + name == w + " " + more;
    PrintHasNoSpace(values[0]);
    SplitFirst(w, more, |values|);
    var split := SplitWords(Join(values) + name, |values|);
    if |values| == 1 {
      assert more == name && split.words == [w];
    } else {
      SplitJoined(values[1..], kinds[1..], name);
      assert split.words[1..] == SplitWords(more, |values| - 1).words;
    }
    ParseFirst(kinds, values, split.words);
  }

  lemma NothingSkipped(text: string)
    requires text != "" && text[0] != ' '
    ensures SkipSpaces(text) == text
  {
  }

  /** A space in front changes nothing, unless no word is wanted: then it stays in the rest. */
  lemma SplitAfterSpace(more: string, limit: nat)
    ensures SplitWords(" " + more, limit) == if limit == 0 then Split([], " " + more) else SplitWords(more, limit)
  {
  }

  lemma {:induction false} JoinedTrims(values: seq<int>)
    requires values != []
    ensures TrimEnd(Join(values)) + " " == Join(values)
    decreases |values|
  {
    var w, more := Print(values[0]), Join(values[1..]);
    PrintHasNoSpace(values[0]);
    TrimEndAppend(w + " ", more);
    assert w + " " + more == Join(values);
    if |values| > 1 {
      JoinedTrims(values[1..]);
      JoinNotEmpty(values[1..]);
    } else {
      assert more == "" && TrimEnd(more) == "";
      TrimEndAppend(w, " ");
      assert TrimEnd(" ") == TrimEnd("") by { assert " "[..0] == ""; }
      }
  }

  lemma JoinNotEmpty(values: seq<int>)
    requires values != []
    ensures Join(values) != "" && TrimEnd(Join(values)) != ""
  {
    hide PrintNat;
    var w, more := Print(values[0]), Join(values[1..]);
    PrintHasNoSpace(values[0]);
    TrimEndAppend(w + " ", more);
    assert w + " " + more == Join(values);
    TrimEndAppend(w, " ");
    assert TrimEnd(" ") == TrimEnd("") by { assert " "[..0] == ""; }
  }

  lemma TrimKeepsStart(a: string, b: string)
    requires a != "" && a[0] != ' ' && TrimEnd(b) != ""
    ensures Trim(a + b) == a + TrimEnd(b)
  {
    TrimEndAppend(a, b);
    NothingSkipped(a + TrimEnd(b));
  }

  /** What the broker receives: the command, less whatever trims off the end of the name. */
  lemma TrimmedCommand(prefix: string, fields: Fields)
    requires prefix != "" && prefix[0] != ' ' && fields.values != []
    ensures var joined := Join(fields.values);
            Trim(PrintCommand(prefix, fields)) ==
              prefix + if TrimEnd(fields.name) == "" then TrimEnd(joined) else joined + TrimEnd(fields.name)
  {
    var joined := Join(fields.values);
    assert PrintCommand(prefix, fields) == prefix + (joined + fields.name);
    TrimEndAppend(joined, fields.name);
    JoinNotEmpty(fields.values);
    TrimKeepsStart(prefix, joined + fields.name);
  }

  /** Without a name the last number ends the command, and parsing fails. */
  lemma NamelessFails(prefix: string, kinds: seq<Kind>, values: seq<int>)
    requires AllFit(kinds, values) && values != []
    ensures ParseCommand(prefix, kinds, prefix + TrimEnd(Join(values))) == None
  {
    hide Print, ParseNumber, Fits, ParseNumbers, TrimEnd;
    var text := prefix + TrimEnd(Join(values));
    assert text[|prefix|..] == TrimEnd(Join(values));
    SplitNameless(values);
  }

  /** One number, trimmed, is the printed number. */
  lemma OneTrimmed(value: int)
    ensures TrimEnd(Join([value])) == Print(value)
  {
    hide Print;
    var w := Print(value);
    PrintHasNoSpace(value);
    assert [value][1..] == [] && Join([value]) == w + " " + "";
    assert Join([value]) == w + " ";
    assert (w + " ")[..|w|] == w;
  }

  /** More than one, trimmed, are the first, a space, and the others trimmed. */
  lemma MoreTrimmed(values: seq<int>)
    requires |values| > 1
    ensures TrimEnd(Join(values)) == Print(values[0]) + " " + TrimEnd(Join(values[1..]))
  {
    hide Print;
    var w, more := Print(values[0]), Join(values[1..]);
    assert Join(values) == (w + " ") + more;
    TrimEndAppend(w + " ", more);
    JoinNotEmpty(values[1..]);
  }

  lemma SplitOne(w: string)
    requires w != "" && NoSpace(w)
    ensures SplitWords(w, 1).rest == ""
  {
    NothingSkipped(w);
    WholeWord(w);
    NothingLeft(0);
  }

  lemma {:induction false} SplitNameless(values: seq<int>)
    requires values != []
    ensures SplitWords(TrimEnd(Join(values)), |values|).rest == ""
    decreases |values|
  {
    hide Print, SplitWords, TrimEnd, Join;
    PrintHasNoSpace(values[0]);
    if |values| == 1 {
      assert values == [values[0]];
      OneTrimmed(values[0]);
      SplitOne(Print(values[0]));
    } else {
      MoreTrimmed(values);
      SplitFirst(Print(values[0]), TrimEnd(Join(values[1..])), |values|);
      SplitNameless(values[1..]);
    }
  }

  lemma WholeWord(w: string)
    requires NoSpace(w)
    ensures WordLength(w) == |w|
    decreases |w|
  {
  }

  /**
   For every prefix, numbers in range and name: trimming and parsing the printed
   command gives the numbers and the trimmed name, cut to what the name field
   holds; or nothing at all if the name trims away.
   */
  lemma CommandRoundTrip(prefix: string, kinds: seq<Kind>, fields: Fields)
    requires prefix != "" && prefix[0] != ' ' && kinds != [] && AllFit(kinds, fields.values)
    ensures ParseCommand(prefix, kinds, Trim(PrintCommand(prefix, fields))) ==
              if Trim(fields.name) == "" then None else Some(Fields(fields.values, KeptName(Trim(fields.name))))
  {
    hide Print, ParseNumber, Fits, ParseNumbers, SplitWords, Join, TrimEnd, SkipSpaces;
    var values, name := fields.values, TrimEnd(fields.name);
    TrimmedCommand(prefix, fields);
    if name == "" {
      NothingToSkip();
      NamelessFails(prefix, kinds, values);
    } else {
      var payload := Join(values) + name;
      assert Trim(PrintCommand(prefix, fields)) == prefix + payload;
      assert (prefix + payload)[|prefix|..] == payload;
      SplitJoined(values, kinds, name);
      LeadingSpace(name);
    }
  }

  lemma NothingToSkip()
    ensures SkipSpaces("") == ""
  {
  }

  /**
   The command reproduces its fields exactly if its name is one the field holds, with no space or
   line end around it.
   */
  lemma CommandRoundTripIff(prefix: string, kinds: seq<Kind>, fields: Fields)
    requires prefix != "" && prefix[0] != ' ' && kinds != [] && AllFit(kinds, fields.values)
    ensures ParseCommand(prefix, kinds, Trim(PrintCommand(prefix, fields))) == Some(fields) <==> CleanName(fields.name)
  {
    hide ParseCommand, PrintCommand, AllFit, TrimEnd, SkipSpaces;
    CommandRoundTrip(prefix, kinds, fields);
    TrimmedClean(fields.name);
    TrimShrinks(fields.name);
  }

  /** What a caller can check of a name: not empty, short enough, no space in front and nothing to trim behind. */
  predicate CleanName(name: string) {
    name != "" && |name| < NAME_CHARS && name[0] != ' ' && !Trailing(name[|name| - 1])
  }

  lemma TrimmedClean(name: string)
    ensures name != "" && Trim(name) == name <==> name != "" && name[0] != ' ' && !Trailing(name[|name| - 1])
  {
    TrimShrinks(name);
    TrimEndShrinks(name);
    SkipShrinks(TrimEnd(name));
    if name != "" && Trim(name) == name {
      SameLength(name);
    }
  }

  lemma SameLength(name: string)
    requires Trim(name) == name && name != ""
    ensures TrimEnd(name) == name
  {
    SkipShrinks(TrimEnd(name));
    TrimEndShrinks(name);
  }

  lemma {:induction false} TrimEndShrinks(s: string)
    ensures |TrimEnd(s)| <= |s| && (|TrimEnd(s)| == |s| ==> TrimEnd(s) == s && (s != "" ==> !Trailing(s[|s| - 1])))
    decreases |s|
  {
    if s != "" && Trailing(s[|s| - 1]) {
      TrimEndShrinks(s[..|s| - 1]);
    }
  }

  lemma TrimShrinks(name: string)
    ensures |Trim(name)| <= |name|
  {
    TrimEndShrinks(name);
    SkipShrinks(TrimEnd(name));
  }

  // ---------------------------------------------------------------- the two commands

  /** The check the command line makes on a name. */
  predicate SafeName(name: string) {
    name != "" && |name| < NAME_CHARS && forall c | c in name :: c >= ' ' && c != 0x7f as char
  }

  datatype PermanentOptions = PermanentOptions(count: int, width: int, height: int, physicalWidth: int,
                                               physicalHeight: int,
                                               refresh: int, name: string)

  const PERMANENT_PREFIX := "permanent-set "
  const PERMANENT_KINDS := [Unsigned32, Unsigned32, Unsigned32, Unsigned32, Unsigned32, Unsigned32]

  function PermanentFields(o: PermanentOptions): Fields {
    Fields([o.count, o.width, o.height, o.physicalWidth, o.physicalHeight, o.refresh], o.name)
  }

  function ParsePermanentSet(command: string): Option<PermanentOptions> {
    var fields := ParseCommand(PERMANENT_PREFIX, PERMANENT_KINDS, command);
    if fields.None? then None
    else
      ParsedCount(PERMANENT_PREFIX, PERMANENT_KINDS, command);
      var v := fields.value.values;
      Some(PermanentOptions(v[0], v[1], v[2], v[3], v[4], v[5], fields.value.name))
  }

  lemma {:induction false} NumbersCounted(kinds: seq<Kind>, words: seq<string>)
    requires |words| == |kinds|
    ensures var values := ParseNumbers(kinds, words); values.Some? ==> |values.value| == |kinds|
    decreases |kinds|
  {
    if kinds != [] {
      NumbersCounted(kinds[1..], words[1..]);
    }
  }

  lemma ParsedCount(prefix: string, kinds: seq<Kind>, command: string)
    ensures var fields := ParseCommand(prefix, kinds, command); fields.Some? ==> |fields.value.values| == |kinds|
  {
    if prefix <= command {
      var split := SplitWords(command[|prefix|..], |kinds|);
      if |split.words| == |kinds| {
        NumbersCounted(kinds, split.words);
      }
    }
  }

  /** A safe name survives the permanent-set command, with all six numbers, exactly if no space leads or trails it. */
  lemma PermanentSetRoundTrip(o: PermanentOptions)
    requires AllFit(PERMANENT_KINDS, PermanentFields(o).values) && SafeName(o.name)
    ensures ParsePermanentSet(Trim(PrintCommand(PERMANENT_PREFIX, PermanentFields(o)))) == Some(o) <==>
              o.name[0] != ' ' && o.name[|o.name| - 1] != ' '
  {
    hide ParseCommand, PrintCommand, Trim, AllFit;
    var command := Trim(PrintCommand(PERMANENT_PREFIX, PermanentFields(o)));
    CommandRoundTripIff(PERMANENT_PREFIX, PERMANENT_KINDS, PermanentFields(o));
    assert o.name[|o.name| - 1] in o.name;
    ParsedCount(PERMANENT_PREFIX, PERMANENT_KINDS, command);
    var fields := ParseCommand(PERMANENT_PREFIX, PERMANENT_KINDS, command);
    if fields.Some? {
      SixFields(fields.value);
    }
  }

  lemma SixFields(fields: Fields)
    requires |fields.values| == 6
    ensures var v := fields.values; fields == Fields([v[0], v[1], v[2], v[3], v[4], v[5]], fields.name)
  {
  }

  datatype ProfileOptions = ProfileOptions(slot: int, width: int, height: int, physicalWidth: int, physicalHeight: int,
                                           refresh: int, hdr: int, layout: int, x: int, y: int, name: string)

  /** The request fields taken from the command; the rest of the profile derives from the slot. */
  datatype ManifestProfile = ManifestProfile(connector: int, width: int, height: int, physicalWidth: int,
                                             physicalHeight: int,
                                             refresh: int, hdrSupported: bool, layout: int,
                                             x: int, y: int, name: string)

  const PROFILE_PREFIX := "manifest-profile-set "
  const PROFILE_KINDS := [Unsigned32, Unsigned32, Unsigned32, Unsigned32, Unsigned32, Unsigned32, Unsigned32,
                          Unsigned32,
                          Signed32, Signed32]

  function ProfileFields(o: ProfileOptions): Fields {
    Fields([o.slot, o.width, o.height, o.physicalWidth, o.physicalHeight, o.refresh, o.hdr, o.layout, o.x, o.y], o.name)
  }

  function ParseManifestProfileSet(command: string): Option<ManifestProfile> {
    var fields := ParseCommand(PROFILE_PREFIX, PROFILE_KINDS, command);
    if fields.None? then None
    else
      ParsedCount(PROFILE_PREFIX, PROFILE_KINDS, command);
      var v := fields.value.values;
      Some(ManifestProfile(v[0], v[1], v[2], v[3], v[4], v[5], v[6] != 0, v[7], v[8], v[9], fields.value.name))
  }

  function ProfileOf(o: ProfileOptions): ManifestProfile {
    ManifestProfile(o.slot, o.width, o.height, o.physicalWidth, o.physicalHeight, o.refresh, o.hdr != 0, o.layout,
                    o.x, o.y, o.name)
  }

  lemma ProfileSetRoundTrip(o: ProfileOptions)
    requires AllFit(PROFILE_KINDS, ProfileFields(o).values) && SafeName(o.name)
    ensures ParseManifestProfileSet(Trim(PrintCommand(PROFILE_PREFIX, ProfileFields(o)))) == Some(ProfileOf(o)) <==>
              o.name[0] != ' ' && o.name[|o.name| - 1] != ' '
  {
    hide ParseCommand, PrintCommand, AllFit, TrimEnd, SkipSpaces;
    CommandRoundTrip(PROFILE_PREFIX, PROFILE_KINDS, ProfileFields(o));
    TrimmedClean(o.name);
    TrimShrinks(o.name);
    assert o.name[|o.name| - 1] in o.name;
  }

  /** The name field holds 32 characters with the terminator: 31 of a longer name are kept, all of a shorter one. */
  lemma NameKept(name: string)
    ensures KeptName(name) <= name && |KeptName(name)| == if |name| < 31 then |name| else 31
  {
  }

  /** The line end that a pipe client sends after a command is trimmed away, as are spaces on either side. */
  lemma LineEndIgnored(text: string)
    ensures Trim(text + "\r\n") == Trim(text) && Trim(text + "\n") == Trim(text) && Trim(text + " ") == Trim(text)
    ensures Trim(" " + text) == Trim(text)
  {
    assert "\r\n"[..1] == "\r" && "\r"[..0] == "" && "\n"[..0] == "" && " "[..0] == "";
    TrimEndAppend(text, "\r\n");
    TrimEndAppend(text, "\n");
    TrimEndAppend(text, " ");
    TrimEndAppend(" ", text);
    if TrimEnd(text) != "" {
      assert (" " + TrimEnd(text))[1..] == TrimEnd(text);
    }
  }

  // ---------------------------------------------------------------- the text itself

  /** A number is printed without leading zeros: so there is one text for each. */
  lemma {:induction false} NoLeadingZero(n: nat)
    ensures PrintNat(n)[0] == '0' <==> n == 0
    decreases n
  {
    if n >= 10 {
      NoLeadingZero(n / 10);
      assert PrintNat(n)[0] == PrintNat(n / 10)[0];
    }
  }

  /** A signed number is its digits, after a minus sign if it is negative. */
  lemma PrintedIs(value: int)
    ensures var text := Print(value);
            && text != ""
            && (value >= 0 ==> Digits(text) && Value(text) == value && (text[0] == '0' <==> value == 0))
            && (value < 0 ==> text[0] == '-' && Digits(text[1..]) && Value(text[1..]) == -value && text[1] != '0')
  {
    var n: nat := if value < 0 then -value else value;
    ValuePrintNat(n);
    NoLeadingZero(n);
    assert ("-" + PrintNat(n))[1..] == PrintNat(n);
  }

  /** A number as the next word of a command. */
  function Word(value: int, rest: string): string {
    Print(value) + " " + rest
  }

  lemma JoinOne(v: seq<int>, rest: string)
    requires v != []
    ensures Join(v) + rest == Word(v[0], Join(v[1..]) + rest)
  {
    hide Print;
    assert Join(v) + rest == Print(v[0]) + " " + (Join(v[1..]) + rest);
  }

  lemma JoinNone(rest: string)
    ensures Join([]) + rest == rest
  {
    assert Join([]) == "" && "" + rest == rest;
  }

  lemma JoinSix(v: seq<int>, rest: string)
    requires |v| >= 6
    ensures Join(v) + rest ==
              Word(v[0], Word(v[1], Word(v[2], Word(v[3], Word(v[4], Word(v[5], Join(v[6..]) + rest))))))
  {
    hide Join, Word;
    assert v[1..][1..] == v[2..] && v[2..][1..] == v[3..] && v[3..][1..] == v[4..] && v[4..][1..] == v[5..];
    assert v[5..][1..] == v[6..];
    JoinOne(v, rest);
    JoinOne(v[1..], rest);
    JoinOne(v[2..], rest);
    JoinOne(v[3..], rest);
    JoinOne(v[4..], rest);
    JoinOne(v[5..], rest);
  }

  lemma JoinFour(v: seq<int>, rest: string)
    requires |v| == 4
    ensures Join(v) + rest == Word(v[0], Word(v[1], Word(v[2], Word(v[3], rest))))
  {
    hide Join, Word;
    assert v[1..][1..] == v[2..] && v[2..][1..] == v[3..] && v[3..][1..] == [];
    JoinOne(v, rest);
    JoinOne(v[1..], rest);
    JoinOne(v[2..], rest);
    JoinOne(v[3..], rest);
    JoinNone(rest);
  }

  lemma CommandText(prefix: string, fields: Fields)
    ensures PrintCommand(prefix, fields) == prefix + (Join(fields.values) + fields.name)
  {
    hide Join;
    assert prefix + Join(fields.values) + fields.name == prefix + (Join(fields.values) + fields.name);
  }

  /** What the permanent-set command says, word by word. */
  lemma PermanentText(o: PermanentOptions)
    ensures PrintCommand(PERMANENT_PREFIX, PermanentFields(o)) ==
              "permanent-set " +
              Word(o.count, Word(o.width, Word(o.height, Word(o.physicalWidth, Word(o.physicalHeight,
                Word(o.refresh, o.name))))))
  {
    hide Join, Word, PrintCommand;
    var v := PermanentFields(o).values;
    CommandText(PERMANENT_PREFIX, PermanentFields(o));
    JoinSix(v, o.name);
    assert v[6..] == [];
    JoinNone(o.name);
  }

  /** And the manifest-profile-set command. */
  lemma ProfileText(o: ProfileOptions)
    ensures PrintCommand(PROFILE_PREFIX, ProfileFields(o)) ==
              "manifest-profile-set " +
              Word(o.slot, Word(o.width, Word(o.height, Word(o.physicalWidth, Word(o.physicalHeight,
                Word(o.refresh, Word(o.hdr, Word(o.layout, Word(o.x, Word(o.y, o.name))))))))))
  {
    hide Join, Word, PrintCommand;
    var v := ProfileFields(o).values;
    CommandText(PROFILE_PREFIX, ProfileFields(o));
    JoinSix(v, o.name);
    assert v[6..] == [o.hdr, o.layout, o.x, o.y];
    JoinFour(v[6..], o.name);
  }
}

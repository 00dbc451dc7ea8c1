/**
 parse_info (ccci/ccci_lib.c): a four-state scanner over `[name]:value` lines with two 32-byte buffers.  The
 specification is the list of name/value pairs that a text contains.
 */
module ParseInfo {
  import opened Common

  const BUFFER_SIZE := 32

  predicate IsEol(c: char) {
    c == '\r' || c == '\n'
  }

  /** The C string at the start of a buffer: everything before the first NUL. */
  function CString(s: string): (r: string)
    ensures r <= s
  {
    if s == [] || s[0] == '\0' then [] else [s[0]] + CString(s[1..])
  }

  lemma {:induction false} CStringEnds(s: string, rest: string)
    ensures CString(s + ['\0'] + rest) == CString(s)
  {
    if s == [] {
      assert s + ['\0'] + rest == ['\0'] + rest;
    } else {
      assert s + ['\0'] + rest == [s[0]] + (s[1..] + ['\0'] + rest);
      CStringEnds(s[1..], rest);
    }
  }

  lemma {:induction false} CStringWhole(s: string)
    requires '\0' !in s
    ensures CString(s) == s
  {
    if s != [] {
      CStringWhole(s[1..]);
    }
  }

  // ---------- the scanner ----------

  datatype Scan = Outside | InName(name: string) | AfterName(name: string) | InValue(name: string, value: string)

  type Pair = (string, string)

  /** The scanner after one character, and the pair that this character completes, if it does. */
  function Advance(scan: Scan, c: char): (Scan, seq<Pair>) {
    match scan
    case Outside => (if c == '[' then InName([]) else Outside, [])
    case InName(name) =>
      (if c == ']' then AfterName(name) else if IsEol(c) then Outside else InName(name + [c]), [])
    case AfterName(name) => (if c == ':' then InValue(name, []) else Outside, [])
    case InValue(name, value) => if IsEol(c) then (Outside, [(name, value)]) else (InValue(name, value + [c]), [])
  }

  function Final(scan: Scan, text: string): Scan
    decreases |text|
  {
    if text == [] then scan else Final(Advance(scan, text[0]).0, text[1..])
  }

  function Pairs(scan: Scan, text: string): seq<Pair>
    decreases |text|
  {
    if text == [] then [] else Advance(scan, text[0]).1 + Pairs(Advance(scan, text[0]).0, text[1..])
  }

  /** The store that this character causes, a terminator included, is inside its buffer. */
  predicate StoreFits(scan: Scan, c: char) {
    && (scan.InName? && !IsEol(c) ==> |scan.name| < BUFFER_SIZE)
    && (scan.InValue? ==> |scan.value| < BUFFER_SIZE)
  }

  /** No store goes past the end of either buffer. */
  predicate Fits(scan: Scan, text: string)
    decreases |text|
  {
    text != [] ==> StoreFits(scan, text[0]) && Fits(Advance(scan, text[0]).0, text[1..])
  }

  /** No store does until the first pair with the wanted name, where the scan ends. */
  predicate FitsUntil(scan: Scan, text: string, name: string)
    decreases |text|
  {
    text != [] ==>
      && StoreFits(scan, text[0])
      && (Lookup(Advance(scan, text[0]).1, name).Some? || FitsUntil(Advance(scan, text[0]).0, text[1..], name))
  }

  /** The value of the first pair with the wanted name. */
  function Lookup(pairs: seq<Pair>, name: string): Option<string> {
    if pairs == [] then None
    else if CString(pairs[0].0) == name then Some(CString(pairs[0].1))
    else Lookup(pairs[1..], name)
  }

  lemma {:induction false} ScanAppends(scan: Scan, a: string, b: string)
    ensures Final(scan, a + b) == Final(Final(scan, a), b)
    ensures Pairs(scan, a + b) == Pairs(scan, a) + Pairs(Final(scan, a), b)
    ensures Fits(scan, a + b) <==> Fits(scan, a) && Fits(Final(scan, a), b)
    decreases |a|
  {
    hide Advance, StoreFits;
    if a == [] {
      assert a + b == b;
    } else {
      assert (a + b)[1..] == a[1..] + b;
      ScanAppends(Advance(scan, a[0]).0, a[1..], b);
    }
  }

  lemma {:induction false} LookupAppends(a: seq<Pair>, b: seq<Pair>, name: string)
    ensures Lookup(a + b, name) == if Lookup(a, name).Some? then Lookup(a, name) else Lookup(b, name)
  {
    if a == [] {
      assert a + b == b;
    } else {
      assert (a + b)[1..] == a[1..] + b;
      LookupAppends(a[1..], b, name);
    }
  }

  lemma {:induction false} UntilAppends(scan: Scan, a: string, b: string, name: string)
    ensures FitsUntil(scan, a + b, name) <==>
            FitsUntil(scan, a, name) && (Lookup(Pairs(scan, a), name).Some? || FitsUntil(Final(scan, a), b, name))
    decreases |a|
  {
    hide Advance, StoreFits, Lookup;
    LookupNothing(name);
    if a == [] {
      assert a + b == b;
    } else {
      assert (a + b)[1..] == a[1..] + b;
      var (next, made) := Advance(scan, a[0]);
      LookupAppends(made, Pairs(next, a[1..]), name);
      UntilAppends(next, a[1..], b, name);
    }
  }

  lemma {:induction false} UntilWithoutPairs(scan: Scan, text: string, name: string)
    requires Pairs(scan, text) == []
    ensures FitsUntil(scan, text, name) <==> Fits(scan, text)
    decreases |text|
  {
    if text != [] {
      UntilWithoutPairs(Advance(scan, text[0]).0, text[1..], name);
    }
  }

  /** Writes at most size bytes including the terminator, as snprintf does. */
  function Truncated(value: string, size: nat): string {
    if size == 0 then [] else Take(value, size - 1)
  }

  lemma TruncatedIs(value: string, size: nat)
    ensures Truncated(value, size) <= value
    ensures |Truncated(value, size)| == if size == 0 then 0 else Min(|value|, size - 1)
  {
  }

  // ---------- the method ----------

  /** How the C variables state, j and the two buffers stand for a Scan. */
  ghost predicate Represents(scan: Scan, state: int, j: nat, tmpName: seq<char>, tmpVal: seq<char>) {
    && |tmpName| == |tmpVal| == BUFFER_SIZE
    && match scan
       case Outside => state == 0
       case InName(name) => state == 1 && j == |name| <= BUFFER_SIZE && tmpName[..j] == name
       case AfterName(name) => state == 2 && j == 0 && CString(tmpName) == CString(name)
       case InValue(name, value) =>
         state == 3 && CString(tmpName) == CString(name) && j == |value| <= BUFFER_SIZE && tmpVal[..j] == value
  }

  lemma ScanNext(scan: Scan, raw: string, i: nat, name: string)
    requires i < |raw|
    ensures Pairs(scan, raw[i..]) == Advance(scan, raw[i]).1 + Pairs(Advance(scan, raw[i]).0, raw[i + 1..])
    ensures FitsUntil(scan, raw[i..], name) ==>
              && StoreFits(scan, raw[i])
              && (Lookup(Advance(scan, raw[i]).1, name).Some? ||
                  FitsUntil(Advance(scan, raw[i]).0, raw[i + 1..], name))
  {
    assert raw[i..][1..] == raw[i + 1..];
  }

  /** Looking a name up among the pairs up to and including those of the current character. */
  lemma LookupNext(before: seq<Pair>, made: seq<Pair>, after: seq<Pair>, name: string)
    requires Lookup(before, name) == None && |made| <= 1
    ensures Lookup(made, name).Some? <==> made != [] && CString(made[0].0) == name
    ensures made == [] || CString(made[0].0) != name ==> Lookup(before + made, name) == None
    ensures made != [] && CString(made[0].0) == name ==>
              Lookup(before + (made + after), name) == Some(CString(made[0].1))
  {
    LookupAppends(before, made, name);
    LookupAppends(before, made + after, name);
    LookupAppends(made, after, name);
  }

  /** Storing a terminator behind the characters collected so far makes the buffer that C string. */
  method Terminate(buffer: array<char>, j: nat)
    requires j < buffer.Length
    modifies buffer
    ensures CString(buffer[..]) == CString(old(buffer[..j]))
  {
    ghost var s := buffer[..j];
    buffer[j] := '\0';
    CStringEnds(s, buffer[j + 1..]);
    assert buffer[..] == s + ['\0'] + buffer[j + 1..];
  }

  method ParseInfo(raw: string, name: string, size: nat) returns (ret: int, val: string)
    requires FitsUntil(Outside, raw, name)
    ensures var found := Lookup(Pairs(Outside, raw), name);
            && (found.None? ==> ret == -1 && val == [])
            && (found.Some? ==>
                 && ret == 0 && val <= found.value
                 && |val| == if size == 0 then 0 else Min(|found.value|, size - 1))
  {
    hide Pairs, FitsUntil, Lookup, CString, Truncated;
    var state, j := 0, 0;
    var tmpName, tmpVal := new char[BUFFER_SIZE], new char[BUFFER_SIZE];
    ghost var scan, pairs := Outside, [];
    assert raw[0..] == raw && pairs + Pairs(Outside, raw) == Pairs(Outside, raw);
    assert Lookup([], name) == None by { LookupNothing(name); }
    for i := 0 to |raw|
      invariant FitsUntil(scan, raw[i..], name)
      invariant Pairs(Outside, raw) == pairs + Pairs(scan, raw[i..])
      invariant Lookup(pairs, name) == None
      invariant Represents(scan, state, j, tmpName[..], tmpVal[..])
    {
      ghost var (next, made) := Advance(scan, raw[i]);
      ScanNext(scan, raw, i, name);
      LookupNext(pairs, made, Pairs(next, raw[i + 1..]), name);
      assert pairs + (made + Pairs(next, raw[i + 1..])) == (pairs + made) + Pairs(next, raw[i + 1..]);
      if state == 0 {
        if raw[i] == '[' {
          j, state := 0, 1;
        }
      } else if state == 1 {
        if raw[i] == ']' {
          state := 2;
          Terminate(tmpName, j);
          j := 0;
        } else if IsEol(raw[i]) {
          j, state := 0, 0;
        } else {
          tmpName[j] := raw[i];
          j := j + 1;
        }
      } else if state == 2 {
        if raw[i] == ':' {
          state := 3;
          tmpVal[0] := '\0';
        } else {
          state := 0;
        }
      } else {
        if IsEol(raw[i]) {
          Terminate(tmpVal, j);
          j := 0;
          if CString(tmpName[..]) == name {
            TruncatedIs(CString(tmpVal[..]), size);
            return 0, Truncated(CString(tmpVal[..]), size);
          }
          state := 0;
        } else {
          tmpVal[j] := raw[i];
          j := j + 1;
        }
      }
      scan, pairs := next, pairs + made;
    }
    NoMorePairs(scan, raw, pairs);
    return -1, [];
  }

  lemma LookupNothing(name: string)
    ensures Lookup([], name) == None
  {
  }

  lemma NoMorePairs(scan: Scan, raw: string, pairs: seq<Pair>)
    ensures pairs + Pairs(scan, raw[|raw|..]) == pairs
  {
    assert raw[|raw|..] == [];
  }

  // ---------- printing and parsing ----------

  /** A line of the file: text without an opening bracket, then the pair, then LF or CRLF. */
  datatype Line = Line(lead: string, name: string, value: string, crlf: bool)
  {
    predicate Plain() {
      && '[' !in lead
      && ']' !in name && '\r' !in name && '\n' !in name && '\0' !in name
      && '\r' !in value && '\n' !in value && '\0' !in value
    }

    predicate Short() {
      |name| < BUFFER_SIZE && |value| < BUFFER_SIZE
    }

    function Print(): string {
      lead + (['['] + (name + ([']', ':'] + (value + if crlf then ['\r', '\n'] else ['\n']))))
    }
  }

  function PrintAll(lines: seq<Line>): string {
    if lines == [] then [] else lines[0].Print() + PrintAll(lines[1..])
  }

  function PairsOf(lines: seq<Line>): seq<Pair> {
    seq(|lines|, i requires 0 <= i < |lines| => (lines[i].name, lines[i].value))
  }

  lemma {:induction false} ScanLead(lead: string)
    requires '[' !in lead
    ensures Final(Outside, lead) == Outside && Pairs(Outside, lead) == [] && Fits(Outside, lead)
  {
    if lead != [] {
      ScanLead(lead[1..]);
    }
  }

  lemma {:induction false} ScanName(done: string, name: string)
    requires ']' !in name && '\r' !in name && '\n' !in name
    ensures Final(InName(done), name) == InName(done + name) && Pairs(InName(done), name) == []
    ensures Fits(InName(done), name) <==> name == [] || |done + name| <= BUFFER_SIZE
    decreases |name|
  {
    if name == [] {
      assert done + name == done;
    } else {
      assert done + name == done + [name[0]] + name[1..];
      ScanName(done + [name[0]], name[1..]);
    }
  }

  lemma {:induction false} ScanValue(name: string, done: string, value: string)
    requires '\r' !in value && '\n' !in value
    ensures Final(InValue(name, done), value) == InValue(name, done + value)
    ensures Pairs(InValue(name, done), value) == []
    ensures Fits(InValue(name, done), value) <==> value == [] || |done + value| <= BUFFER_SIZE
    decreases |value|
  {
    if value == [] {
      assert done + value == done;
    } else {
      assert done + value == done + [value[0]] + value[1..];
      ScanValue(name, done + [value[0]], value[1..]);
    }
  }

  lemma ScanEol(name: string, value: string, crlf: bool)
    ensures var eol := if crlf then ['\r', '\n'] else ['\n'];
            && Final(InValue(name, value), eol) == Outside && Pairs(InValue(name, value), eol) == [(name, value)]
            && (Fits(InValue(name, value), eol) <==> |value| < BUFFER_SIZE)
            && forall wanted :: FitsUntil(InValue(name, value), eol, wanted) <==> |value| < BUFFER_SIZE
  {
    assert ['\r', '\n'][1..] == ['\n'] && ['\n'][1..] == [];
    assert Final(Outside, ['\n']) == Outside && Pairs(Outside, ['\n']) == [];
  }

  lemma ScanDelimiters(name: string)
    ensures Final(Outside, ['[']) == InName([]) && Pairs(Outside, ['[']) == [] && Fits(Outside, ['['])
    ensures Final(InName(name), [']', ':']) == InValue(name, []) && Pairs(InName(name), [']', ':']) == []
    ensures Fits(InName(name), [']', ':']) <==> |name| < BUFFER_SIZE
  {
    assert ['['][1..] == [] && [']', ':'][1..] == [':'] && [':'][1..] == [];
    assert Final(AfterName(name), [':']) == InValue(name, []) && Pairs(AfterName(name), [':']) == [];
    assert Fits(AfterName(name), [':']);
  }

  /** A name and its value, up to but not including the end of line. */
  lemma ScanNameAndValue(name: string, value: string)
    requires ']' !in name && '\r' !in name && '\n' !in name && '\r' !in value && '\n' !in value
    ensures var text := ['['] + (name + ([']', ':'] + value));
            && Final(Outside, text) == InValue(name, value) && Pairs(Outside, text) == []
            && (Fits(Outside, text) <==> |name| < BUFFER_SIZE && |value| <= BUFFER_SIZE)
  {
    hide Final, Pairs, Fits;
    assert [] + name == name && [] + value == value;
    ScanDelimiters(name);
    ScanValue(name, [], value);
    ScanAppends(InName(name), [']', ':'], value);
    ScanName([], name);
    ScanAppends(InName([]), name, [']', ':'] + value);
    ScanAppends(Outside, ['['], name + ([']', ':'] + value));
  }

  lemma ScanLine(line: Line)
    requires line.Plain()
    ensures Final(Outside, line.Print()) == Outside
    ensures Pairs(Outside, line.Print()) == [(line.name, line.value)]
    ensures Fits(Outside, line.Print()) <==> line.Short()
    ensures forall wanted :: FitsUntil(Outside, line.Print(), wanted) <==> line.Short()
  {
    hide Final, Pairs, Fits, FitsUntil;
    var eol := if line.crlf then ['\r', '\n'] else ['\n'];
    var text := ['['] + (line.name + ([']', ':'] + line.value));
    assert line.Print() == line.lead + (text + eol);
    ScanNameAndValue(line.name, line.value);
    ScanEol(line.name, line.value, line.crlf);
    ScanAppends(Outside, text, eol);
    ScanLead(line.lead);
    ScanAppends(Outside, line.lead, text + eol);
    ScanAppends(Outside, line.lead, text);
    assert line.Print() == (line.lead + text) + eol;
    forall wanted: string
      ensures FitsUntil(Outside, line.Print(), wanted) <==> line.Short()
    {
      assert Pairs(Outside, line.lead + text) == [];
      UntilWithoutPairs(Outside, line.lead + text, wanted);
      UntilAppends(Outside, line.lead + text, eol, wanted);
      LookupNothing(wanted);
    }
  }

  /**
   Scanning a printed file gives back its pairs, all of them and in order, and stays inside the buffers exactly when
   every line is short.
   */
  lemma {:induction false} ParseInvertsPrint(lines: seq<Line>)
    requires forall line <- lines :: line.Plain()
    ensures Final(Outside, PrintAll(lines)) == Outside && Pairs(Outside, PrintAll(lines)) == PairsOf(lines)
    ensures Fits(Outside, PrintAll(lines)) <==> forall line <- lines :: line.Short()
  {
    if lines != [] {
      ScanLine(lines[0]);
      ParseInvertsPrint(lines[1..]);
      ScanAppends(Outside, lines[0].Print(), PrintAll(lines[1..]));
      assert PairsOf(lines) == [(lines[0].name, lines[0].value)] + PairsOf(lines[1..]);
    }
  }

  /** The first line with the wanted name, or the number of lines if there is none. */
  function FirstLine(lines: seq<Line>, name: string): (k: nat)
    ensures k <= |lines| && (k < |lines| ==> lines[k].name == name)
    ensures forall i :: 0 <= i < k ==> lines[i].name != name
  {
    if lines == [] || lines[0].name == name then 0 else 1 + FirstLine(lines[1..], name)
  }

  lemma {:induction false} LookupIsFirstLine(lines: seq<Line>, name: string)
    requires forall line <- lines :: line.Plain()
    ensures var k := FirstLine(lines, name);
            Lookup(PairsOf(lines), name) == if k < |lines| then Some(lines[k].value) else None
  {
    if lines != [] {
      assert lines[0] in lines;
      CStringWhole(lines[0].name);
      CStringWhole(lines[0].value);
      assert PairsOf(lines)[1..] == PairsOf(lines[1..]);
      LookupIsFirstLine(lines[1..], name);
    }
  }

  /** So a name is looked up to the value of the first line that has it, and to nothing when no line does. */
  lemma LookupInPrintedFile(lines: seq<Line>, name: string)
    requires forall line <- lines :: line.Plain()
    ensures var k := FirstLine(lines, name);
            Lookup(Pairs(Outside, PrintAll(lines)), name) == if k < |lines| then Some(lines[k].value) else None
  {
    ParseInvertsPrint(lines);
    LookupIsFirstLine(lines, name);
  }

  /**
   Looking a name up in a printed file stays inside the buffers exactly when every line is short up to the first
   one that has the name.
   */
  lemma {:induction false} LookupStaysInsideIff(lines: seq<Line>, name: string)
    requires forall line <- lines :: line.Plain()
    ensures FitsUntil(Outside, PrintAll(lines), name) <==>
            forall i :: 0 <= i < |lines| && i <= FirstLine(lines, name) ==> lines[i].Short()
  {
    hide FitsUntil;
    if lines == [] {
      NothingFits(name);
    } else {
      assert lines[0] in lines;
      ScanLine(lines[0]);
      UntilAppends(Outside, lines[0].Print(), PrintAll(lines[1..]), name);
      CStringWhole(lines[0].name);
      LookupStaysInsideIff(lines[1..], name);
      if lines[0].name != name {
        assert forall i :: 0 < i < |lines| ==> lines[i] == lines[1..][i - 1];
        assert forall i :: 0 <= i < |lines| - 1 ==> lines[1..][i] == lines[i + 1];
      }
    }
  }

  lemma NothingFits(name: string)
    ensures FitsUntil(Outside, [], name)
  {
  }

  /** A last line without its end of line is not reported. */
  lemma UnterminatedLineIsIgnored(lines: seq<Line>, name: string, value: string)
    requires forall line <- lines :: line.Plain()
    requires Line([], name, value, false).Plain()
    ensures Pairs(Outside, PrintAll(lines) + (['['] + (name + ([']', ':'] + value)))) == PairsOf(lines)
  {
    ParseInvertsPrint(lines);
    ScanNameAndValue(name, value);
    ScanAppends(Outside, PrintAll(lines), ['['] + (name + ([']', ':'] + value)));
  }

  /**
   A line that breaks off inside its name, or has something else than a colon behind the bracket, is given up at that
   character, and the scan goes on as at the start.
   */
  lemma BrokenLineIsGivenUp(name: string, c: char, text: string)
    requires ']' !in name && '\r' !in name && '\n' !in name
    ensures c == '\r' || c == '\n' ==> Pairs(Outside, (['['] + name + [c]) + text) == Pairs(Outside, text)
    ensures c != ':' ==> Pairs(Outside, (['['] + name + [']', c]) + text) == Pairs(Outside, text)
  {
    hide Final, Pairs, Fits;
    ScanDelimiters(name);
    assert [] + name == name;
    ScanName([], name);
    ScanAppends(Outside, ['['], name);
    OneCharacter(InName(name), c);
    TwoCharacters(name, c);
    ScanAppends(Outside, ['['] + name, [c]);
    ScanAppends(Outside, ['['] + name, [']', c]);
    ScanAppends(Outside, ['['] + name + [c], text);
    ScanAppends(Outside, ['['] + name + [']', c], text);
    assert [] + Pairs(Outside, text) == Pairs(Outside, text);
  }

  lemma OneCharacter(scan: Scan, c: char)
    ensures Final(scan, [c]) == Advance(scan, c).0 && Pairs(scan, [c]) == Advance(scan, c).1
  {
    assert [c][1..] == [];
  }

  lemma TwoCharacters(name: string, c: char)
    ensures Final(InName(name), [']', c]) == Advance(AfterName(name), c).0
    ensures Pairs(InName(name), [']', c]) == []
  {
    assert [']', c][1..] == [c];
    OneCharacter(AfterName(name), c);
  }

  /** Whatever the text, a reported pair stands in it between its delimiters. */
  ghost predicate StandsIn(text: string, pair: Pair) {
    exists i, eol :: IsEol(eol) && 0 <= i <= |text| && Written(pair, eol) <= text[i..]
  }

  function Written(pair: Pair, eol: char): string {
    ['['] + pair.0 + [']', ':'] + pair.1 + [eol]
  }

  /** What the scanner has consumed of the pair it is in the middle of. */
  function Open(scan: Scan): string {
    match scan
    case Outside => []
    case InName(name) => ['['] + name
    case AfterName(name) => ['['] + name + [']']
    case InValue(name, value) => ['['] + name + [']', ':'] + value
  }

  lemma {:induction false} PairsStandInText(before: string, scan: Scan, text: string)
    requires |Open(scan)| <= |before| && Open(scan) == before[|before| - |Open(scan)|..]
    ensures forall pair <- Pairs(scan, text) :: StandsIn(before + text, pair)
    decreases |text|
  {
    if text != [] {
      var (next, made) := Advance(scan, text[0]);
      assert before + text == (before + [text[0]]) + text[1..];
      OpenGrows(before, scan, text[0]);
      PairsStandInText(before + [text[0]], next, text[1..]);
      if made != [] {
        CompletedPairStands(before, scan, text);
      }
    }
  }

  lemma OpenGrows(before: string, scan: Scan, c: char)
    requires |Open(scan)| <= |before| && Open(scan) == before[|before| - |Open(scan)|..]
    ensures var open, text := Open(Advance(scan, c).0), before + [c];
            |open| <= |text| && open == text[|text| - |open|..]
  {
    var next := Advance(scan, c).0;
    if next.Outside? {
      assert (before + [c])[|before| + 1..] == [];
    } else if scan.Outside? {
      assert Open(next) == [c];
    } else {
      assert Open(next) == Open(scan) + [c];
    }
  }

  lemma CompletedPairStands(before: string, scan: Scan, text: string)
    requires |Open(scan)| <= |before| && Open(scan) == before[|before| - |Open(scan)|..]
    requires text != [] && Advance(scan, text[0]).1 != []
    ensures StandsIn(before + text, Advance(scan, text[0]).1[0])
  {
    var i, pair := |before| - |Open(scan)|, Advance(scan, text[0]).1[0];
    assert (before + text)[i..] == Open(scan) + text;
    assert Written(pair, text[0]) == Open(scan) + [text[0]];
    assert Written(pair, text[0]) <= (before + text)[i..];
  }
}

/** The results-log reader of results/crunch_numbers.py: each line of a results file holds the
  * run's parameters, a colon, then a version, a timestamp and a measured value separated by
  * whitespace; collect_file groups the values by parameters (and version group) in file order.
  * Reading files and parsing numbers are parameters of the model. */
module CrunchNumbers {
  import opened Wrappers

  // ---------------------------------------------------------------------------------------------
  // Python's whitespace, str.strip and str.split

  /** The characters Python's str.isspace accepts. */
  predicate IsSpace(c: char)
  {
    c == ' ' || ('\t' <= c <= '\r') || ('\U{1C}' <= c <= '\U{1F}') || c == '\U{85}' || c == '\U{A0}' ||
    c == '\U{1680}' || ('\U{2000}' <= c <= '\U{200A}') || c == '\U{2028}' || c == '\U{2029}' ||
    c == '\U{202F}' || c == '\U{205F}' || c == '\U{3000}'
  }

  predicate NoSpace(s: string) { forall i :: 0 <= i < |s| ==> !IsSpace(s[i]) }

  /** The number of leading whitespace characters. */
  function LeadingSpace(s: string): (n: nat)
    ensures n <= |s| && (forall i :: 0 <= i < n ==> IsSpace(s[i])) && (n < |s| ==> !IsSpace(s[n]))
    decreases |s|
  {
    if s == [] || !IsSpace(s[0]) then 0 else 1 + LeadingSpace(s[1..])
  }

  /** The number of trailing whitespace characters. */
  function TrailingSpace(s: string): (n: nat)
    ensures n <= |s| && (forall i :: |s| - n <= i < |s| ==> IsSpace(s[i]))
    ensures n < |s| ==> !IsSpace(s[|s| - 1 - n])
    decreases |s|
  {
    if s == [] || !IsSpace(s[|s| - 1]) then 0 else 1 + TrailingSpace(s[..|s| - 1])
  }

  /** str.strip(): the line without its leading and trailing whitespace. */
  function Strip(s: string): string
  {
    var lo := LeadingSpace(s);
    s[lo..][..|s| - lo - TrailingSpace(s[lo..])]
  }

  /** Strip keeps a contiguous middle part of the line that neither starts nor ends with
    * whitespace, and drops only whitespace around it. */
  lemma StripMeaning(s: string)
    ensures exists lo, hi ::
      (0 <= lo <= hi <= |s| && Strip(s) == s[lo..hi] &&
       (forall i :: 0 <= i < lo ==> IsSpace(s[i])) && (forall i :: hi <= i < |s| ==> IsSpace(s[i])))
    ensures Strip(s) != [] ==> !IsSpace(Strip(s)[0]) && !IsSpace(Strip(s)[|Strip(s)| - 1])
    ensures Strip(s) == [] <==> forall i :: 0 <= i < |s| ==> IsSpace(s[i])
  {
    var lo := LeadingSpace(s);
    var u := s[lo..];
    var t := TrailingSpace(u);
    var hi := |s| - t;
    assert Strip(s) == s[lo..hi];
    forall i | hi <= i < |s| ensures IsSpace(s[i]) { assert s[i] == u[i - lo]; }
    if Strip(s) != [] {
      assert u[|u| - 1 - t] == s[hi - 1];
    }
  }

  /** The length of the word at the front of s. */
  function WordLength(s: string): (n: nat)
    ensures n <= |s| && NoSpace(s[..n]) && (n < |s| ==> IsSpace(s[n]))
    decreases |s|
  {
    if s == [] || IsSpace(s[0]) then 0
    else
      var n := 1 + WordLength(s[1..]);
      assert s[..n] == [s[0]] + s[1..][..n - 1];
      n
  }

  /** str.split() with no separator: the maximal runs of non-whitespace characters, in order. */
  function Words(s: string): (r: seq<string>)
    ensures forall i :: 0 <= i < |r| ==> r[i] != [] && NoSpace(r[i])
    decreases |s|
  {
    if s == [] then []
    else if IsSpace(s[0]) then Words(s[1..])
    else
      var n := WordLength(s);
      [s[..n]] + Words(s[n..])
  }

  lemma {:induction false} WordsOfSpaced(s: string)
    requires s != [] && IsSpace(s[0])
    ensures Words(s) == Words(s[1..])
  {
  }

  /** A word followed by whitespace or by nothing splits off as the first word. */
  lemma {:induction false} WordsCons(w: string, rest: string)
    requires w != [] && NoSpace(w) && (rest == [] || IsSpace(rest[0]))
    ensures Words(w + rest) == [w] + Words(rest)
  {
    var s := w + rest;
    WordLengthOf(w, rest);
    assert s[..|w|] == w && s[|w|..] == rest;
  }

  lemma {:induction false} WordLengthOf(w: string, rest: string)
    requires NoSpace(w) && (rest == [] || IsSpace(rest[0]))
    ensures WordLength(w + rest) == |w|
    decreases |w|
  {
    if w != [] {
      assert (w + rest)[1..] == w[1..] + rest;
      WordLengthOf(w[1..], rest);
    } else {
      assert w + rest == rest;
    }
  }

  /** A word, a space and more text: the word, then the words of the rest. */
  lemma WordsJoin(w: string, rest: string)
    requires w != [] && NoSpace(w)
    ensures Words(w + " " + rest) == [w] + Words(rest)
  {
    WordsCons(w, " " + rest);
    assert w + (" " + rest) == w + " " + rest;
    WordsOfSpaced(" " + rest);
    assert (" " + rest)[1..] == rest;
  }

  /** Three words joined by single spaces split back into those three words. */
  lemma WordsOfFields(a: string, b: string, c: string)
    requires a != [] && NoSpace(a) && b != [] && NoSpace(b) && c != [] && NoSpace(c)
    ensures Words(a + " " + b + " " + c) == [a, b, c]
  {
    WordsCons(c, []);
    assert c + [] == c;
    WordsJoin(b, c);
    WordsJoin(a, b + " " + c);
    assert a + " " + (b + " " + c) == a + " " + b + " " + c;
  }

  // ---------------------------------------------------------------------------------------------
  // parse_line

  /** The position of the last c in s, or -1. */
  function LastIndex(s: string, c: char): (r: int)
    ensures -1 <= r < |s|
    ensures r >= 0 ==> s[r] == c && forall j :: r < j < |s| ==> s[j] != c
    ensures r == -1 <==> c !in s
    decreases |s|
  {
    if s == [] then -1
    else if s[|s| - 1] == c then |s| - 1
    else
      var r := LastIndex(s[..|s| - 1], c);
      assert forall j :: 0 <= j < |s| - 1 ==> s[..|s| - 1][j] == s[j];
      r
  }

  /** line[::-1].find(c): the position of the last c counted from the end, or -1. */
  function ReverseFind(s: string, c: char): int
  {
    var i := LastIndex(s, c);
    if i < 0 then -1 else |s| - 1 - i
  }

  /** s[:i] with Python's reading of a negative bound. */
  function PyPrefix(s: string, i: int): string
  {
    if i < 0 then (if |s| + i < 0 then [] else s[..|s| + i])
    else if i > |s| then s else s[..i]
  }

  /** s[i:] with Python's reading of a negative bound. */
  function PySuffix(s: string, i: int): string
  {
    if i < 0 then (if |s| + i < 0 then s else s[|s| + i..])
    else if i > |s| then [] else s[i..]
  }

  /** Lines 13-15: params and the text that follows them, split at colon = -1 - find. */
  function ColonSplit(line: string): (string, string)
  {
    var colon := -1 - ReverseFind(line, ':');
    (PyPrefix(line, colon), PySuffix(line, colon + 1))
  }

  /** The split at the last colon. With no colon, colon is 0: params is empty and the first
    * character is dropped. With a colon at the very end, colon + 1 is 0: the text after params
    * is the whole line. Otherwise params is everything before the last colon and the text is
    * everything after it. */
  lemma ColonSplitMeaning(line: string)
    ensures ':' !in line ==> ColonSplit(line) == ([], if line == [] then [] else line[1..])
    ensures line != [] && line[|line| - 1] == ':' ==> ColonSplit(line) == (line[..|line| - 1], line)
    ensures forall p :: 0 <= p < |line| - 1 && line[p] == ':' && ':' !in line[p + 1..] ==>
      ColonSplit(line) == (line[..p], line[p + 1..])
  {
    forall p | 0 <= p < |line| - 1 && line[p] == ':' && ':' !in line[p + 1..]
      ensures LastIndex(line, ':') == p
    {
      var r := LastIndex(line, ':');
      assert r >= p;
    }
  }

  /** Parameters, a colon and a colon-free, non-empty rest split back into the two. */
  lemma ColonSplitJoin(params: string, rest: string)
    requires rest != [] && ':' !in rest
    ensures ColonSplit(params + ":" + rest) == (params, rest)
  {
    var line := params + ":" + rest;
    var p := |params|;
    assert line[p] == ':' && line[p + 1..] == rest && line[..p] == params;
    ColonSplitMeaning(line);
  }

  /** What parse_line returns: params, the version's group, the timestamp and the value. */
  datatype Parsed<G, V> = Parsed(params: string, group: Option<G>, timestamp: real, value: V)

  /** The callers' hooks: version_group, float and parse_val. version_group is taken not to raise,
    * and a None it returns is stored as the group; float and parse_val return None where they
    * would raise ValueError. */
  datatype Parsers<G, V> = Parsers(versionGroup: string -> Option<G>,
                                   parseFloat: string -> Option<real>,
                                   parseVal: string -> Option<V>)

  /** parse_line: unpacking a split that does not give exactly three words and a timestamp or
    * value that does not parse both raise ValueError. */
  function ParseLine<G, V>(line: string, parsers: Parsers<G, V>): Result<Parsed<G, V>>
  {
    var (params, rest) := ColonSplit(line);
    var words := Words(rest);
    if |words| != 3 then Err(ValueError)
    else
      match parsers.parseFloat(words[1])
      case None => Err(ValueError)
      case Some(timestamp) =>
        match parsers.parseVal(words[2])
        case None => Err(ValueError)
        case Some(value) => Ok(Parsed(params, parsers.versionGroup(words[0]), timestamp, value))
  }

  /** A line parses exactly when the text after params is three words whose second and third
    * parse as timestamp and value; params and the group come from the split and the first word. */
  lemma ParseLineMeaning<G, V>(line: string, parsers: Parsers<G, V>)
    ensures var words := Words(ColonSplit(line).1);
      ParseLine(line, parsers).Ok? <==>
        |words| == 3 && parsers.parseFloat(words[1]).Some? && parsers.parseVal(words[2]).Some?
    ensures var words := Words(ColonSplit(line).1);
      ParseLine(line, parsers).Ok? ==>
        ParseLine(line, parsers).value ==
          Parsed(ColonSplit(line).0, parsers.versionGroup(words[0]),
                 parsers.parseFloat(words[1]).value, parsers.parseVal(words[2]).value)
  {
  }

  /** A line written as params, ':', then version, timestamp and value separated by single spaces
    * parses back into those fields, whatever colons params holds. */
  lemma ParseFormatted<G, V>(params: string, version: string, timestamp: string, value: string,
                             parsers: Parsers<G, V>)
    requires version != [] && NoSpace(version) && ':' !in version
    requires timestamp != [] && NoSpace(timestamp) && ':' !in timestamp
    requires value != [] && NoSpace(value) && ':' !in value
    requires parsers.parseFloat(timestamp).Some? && parsers.parseVal(value).Some?
    ensures ParseLine(params + ":" + version + " " + timestamp + " " + value, parsers) ==
      Ok(Parsed(params, parsers.versionGroup(version), parsers.parseFloat(timestamp).value,
                parsers.parseVal(value).value))
  {
    var rest := version + " " + timestamp + " " + value;
    assert ':' !in rest;
    ColonSplitJoin(params, rest);
    assert params + ":" + version + " " + timestamp + " " + value == params + ":" + rest;
    WordsOfFields(version, timestamp, value);
  }

  // ---------------------------------------------------------------------------------------------
  // collect_file and collect_files

  /** A dictionary key: params alone when version_group gives None, else the pair. */
  datatype Key<G> = Plain(params: string) | Grouped(params: string, group: G)

  function KeyOf<G, V>(p: Parsed<G, V>): Key<G>
  {
    if p.group.None? then Plain(p.params) else Grouped(p.params, p.group.value)
  }

  /** What collect_file does with one line. */
  datatype Outcome<G, V> = Skipped | Malformed(line: string) | Entry(key: Key<G>, value: V)

  /** Lines 24-32: blank lines and lines starting with '=' are skipped after stripping; a line
    * parse_line rejects is reported (stripped) and skipped; any other line gives its key and
    * value. */
  function Classify<G, V>(line: string, parsers: Parsers<G, V>): Outcome<G, V>
  {
    var l := Strip(line);
    if l == [] || l[..1] == "=" then Skipped
    else
      match ParseLine(l, parsers)
      case Err(_) => Malformed(l)
      case Ok(p) => Entry(KeyOf(p), p.value)
  }

  /** f applied to each element, in order. */
  function MapSeq<A, B>(f: A -> B, xs: seq<A>): (r: seq<B>)
    ensures |r| == |xs| && forall i :: 0 <= i < |xs| ==> r[i] == f(xs[i])
  {
    seq(|xs|, i requires 0 <= i < |xs| => f(xs[i]))
  }

  lemma MapAppend<A, B>(f: A -> B, a: seq<A>, b: seq<A>)
    ensures MapSeq(f, a + b) == MapSeq(f, a) + MapSeq(f, b)
  {
    var l := MapSeq(f, a + b);
    var r := MapSeq(f, a) + MapSeq(f, b);
    forall i | 0 <= i < |l| ensures l[i] == r[i] {
      if i < |a| { assert (a + b)[i] == a[i]; } else { assert (a + b)[i] == b[i - |a|]; }
    }
  }

  /** A line is skipped exactly when it is all whitespace or its first character other than
    * whitespace is '='; parse failures are reported, never skipped. */
  lemma ClassifySkips<G, V>(line: string, parsers: Parsers<G, V>)
    ensures Classify(line, parsers).Skipped? <==>
      (forall i :: 0 <= i < |line| ==> IsSpace(line[i])) ||
      (exists i :: 0 <= i < |line| && line[i] == '=' && forall j :: 0 <= j < i ==> IsSpace(line[j]))
  {
    StripMeaning(line);
    var lo := LeadingSpace(line);
    var l := Strip(line);
    if l != [] {
      assert l[0] == line[lo];
      assert l[..1] == [l[0]];
    }
  }

  /** What collect_file does with each line of a file, in order. */
  function Outcomes<G, V>(lines: seq<string>, parsers: Parsers<G, V>): seq<Outcome<G, V>>
  {
    MapSeq((line: string) => Classify(line, parsers), lines)
  }

  lemma OutcomesAppend<G, V>(a: seq<string>, b: seq<string>, parsers: Parsers<G, V>)
    ensures Outcomes(a + b, parsers) == Outcomes(a, parsers) + Outcomes(b, parsers)
  {
    MapAppend((line: string) => Classify(line, parsers), a, b);
  }

  /** out.get(key, []). */
  function Lookup<K, V>(out: map<K, seq<V>>, key: K): seq<V>
  {
    if key in out then out[key] else []
  }

  /** Lines 32-35: the value appended to its key's list. */
  function Record<G(==), V>(out: map<Key<G>, seq<V>>, o: Outcome<G, V>): map<Key<G>, seq<V>>
  {
    if o.Entry? then out[o.key := Lookup(out, o.key) + [o.value]] else out
  }

  /** The dictionary after recording the outcomes in turn. */
  function Tally<G(==), V>(out: map<Key<G>, seq<V>>, os: seq<Outcome<G, V>>): map<Key<G>, seq<V>>
    decreases |os|
  {
    if os == [] then out else Record(Tally(out, os[..|os| - 1]), os[|os| - 1])
  }

  /** The reported lines among the outcomes, in order. */
  function Reported<G, V>(os: seq<Outcome<G, V>>): seq<string>
    decreases |os|
  {
    if os == [] then []
    else Reported(os[..|os| - 1]) + (if os[|os| - 1].Malformed? then [os[|os| - 1].line] else [])
  }

  /** The values of the entries whose key is `key`, in order. */
  function EntriesFor<G(==), V>(os: seq<Outcome<G, V>>, key: Key<G>): seq<V>
    decreases |os|
  {
    if os == [] then []
    else (if os[0].Entry? && os[0].key == key then [os[0].value] else []) + EntriesFor(os[1..], key)
  }

  /** The dictionary after collect_file has read `lines`. */
  function Collected<G(==), V>(out: map<Key<G>, seq<V>>, lines: seq<string>, parsers: Parsers<G, V>): map<Key<G>, seq<V>>
  {
    Tally(out, Outcomes(lines, parsers))
  }

  /** The values of the lines whose key is `key`, in file order. */
  function ValuesFor<G(==), V>(lines: seq<string>, key: Key<G>, parsers: Parsers<G, V>): seq<V>
  {
    EntriesFor(Outcomes(lines, parsers), key)
  }

  /** The lines collect_file reports as malformed, in file order. */
  function MalformedLines<G, V>(lines: seq<string>, parsers: Parsers<G, V>): seq<string>
  {
    Reported(Outcomes(lines, parsers))
  }

  lemma {:induction false} EntriesForSnoc<G, V>(os: seq<Outcome<G, V>>, o: Outcome<G, V>, key: Key<G>)
    ensures EntriesFor(os + [o], key) ==
      EntriesFor(os, key) + (if o.Entry? && o.key == key then [o.value] else [])
    decreases |os|
  {
    if os == [] {
      assert [] + [o] == [o] && [o][1..] == [];
    } else {
      assert (os + [o])[0] == os[0] && (os + [o])[1..] == os[1..] + [o];
      EntriesForSnoc(os[1..], o, key);
    }
  }

  lemma {:induction false} TallyValues<G, V>(out: map<Key<G>, seq<V>>, os: seq<Outcome<G, V>>, key: Key<G>)
    ensures Lookup(Tally(out, os), key) == Lookup(out, key) + EntriesFor(os, key)
    ensures key in Tally(out, os) <==> key in out || EntriesFor(os, key) != []
    decreases |os|
  {
    if os != [] {
      var init := os[..|os| - 1];
      var o := os[|os| - 1];
      assert init + [o] == os;
      TallyValues(out, init, key);
      EntriesForSnoc(init, o, key);
    }
  }

  /** After collect_file, each key's list is the list it had followed by the values of the lines
    * with that key in file order, and the keys are the old ones plus those of parsed lines. */
  lemma CollectedValues<G, V>(out: map<Key<G>, seq<V>>, lines: seq<string>, key: Key<G>,
                              parsers: Parsers<G, V>)
    ensures Lookup(Collected(out, lines, parsers), key) == Lookup(out, key) + ValuesFor(lines, key, parsers)
    ensures key in Collected(out, lines, parsers) <==> key in out || ValuesFor(lines, key, parsers) != []
  {
    TallyValues(out, Outcomes(lines, parsers), key);
  }

  lemma {:induction false} TallyAppend<G, V>(out: map<Key<G>, seq<V>>, a: seq<Outcome<G, V>>, b: seq<Outcome<G, V>>)
    ensures Tally(out, a + b) == Tally(Tally(out, a), b)
    decreases |b|
  {
    if b == [] {
      assert a + b == a;
    } else {
      assert (a + b)[..|a + b| - 1] == a + b[..|b| - 1];
      assert (a + b)[|a + b| - 1] == b[|b| - 1];
      TallyAppend(out, a, b[..|b| - 1]);
    }
  }

  lemma {:induction false} ReportedAppend<G, V>(a: seq<Outcome<G, V>>, b: seq<Outcome<G, V>>)
    ensures Reported(a + b) == Reported(a) + Reported(b)
    decreases |b|
  {
    if b == [] {
      assert a + b == a;
    } else {
      assert (a + b)[..|a + b| - 1] == a + b[..|b| - 1];
      assert (a + b)[|a + b| - 1] == b[|b| - 1];
      ReportedAppend(a, b[..|b| - 1]);
    }
  }

  /** Reading two files in turn is reading their lines one after the other, for the dictionary
    * and for the report. */
  lemma CollectedAppend<G, V>(out: map<Key<G>, seq<V>>, a: seq<string>, b: seq<string>,
                              parsers: Parsers<G, V>)
    ensures Collected(out, a + b, parsers) == Collected(Collected(out, a, parsers), b, parsers)
    ensures MalformedLines(a + b, parsers) == MalformedLines(a, parsers) + MalformedLines(b, parsers)
  {
    OutcomesAppend(a, b, parsers);
    TallyAppend(out, Outcomes(a, parsers), Outcomes(b, parsers));
    ReportedAppend(Outcomes(a, parsers), Outcomes(b, parsers));
  }

  /** Skipped and malformed lines leave the dictionary as it was. */
  lemma CollectedIgnores<G, V>(out: map<Key<G>, seq<V>>, lines: seq<string>, line: string,
                               parsers: Parsers<G, V>)
    requires !Classify(line, parsers).Entry?
    ensures Collected(out, lines + [line], parsers) == Collected(out, lines, parsers)
  {
    CollectedSnoc(out, lines, line, parsers);
  }

  /** One more line is recorded after the others. */
  lemma CollectedSnoc<G, V>(out: map<Key<G>, seq<V>>, lines: seq<string>, line: string,
                            parsers: Parsers<G, V>)
    ensures Collected(out, lines + [line], parsers) ==
      Record(Collected(out, lines, parsers), Classify(line, parsers))
    ensures MalformedLines(lines + [line], parsers) ==
      MalformedLines(lines, parsers) +
        (if Classify(line, parsers).Malformed? then [Classify(line, parsers).line] else [])
  {
    CollectedAppend(out, lines, [line], parsers);
    var o := Classify(line, parsers);
    assert Outcomes([line], parsers) == [o];
    RecordOne(Collected(out, lines, parsers), o);
  }

  lemma RecordOne<G, V>(out: map<Key<G>, seq<V>>, o: Outcome<G, V>)
    ensures Tally(out, [o]) == Record(out, o)
    ensures Reported([o]) == if o.Malformed? then [o.line] else []
  {
    assert [o][..0] == [];
  }

  /** All lines of all files, in order. */
  function Concat(files: seq<seq<string>>): seq<string>
    decreases |files|
  {
    if files == [] then [] else Concat(files[..|files| - 1]) + files[|files| - 1]
  }

  /** The dictionary `out` that collect_file and collect_files fill in place. */
  class ResultTable<G(==), V> {
    var out: map<Key<G>, seq<V>>

    constructor (initial: map<Key<G>, seq<V>>)
      ensures out == initial
    {
      out := initial;
    }

    /** collect_file over the lines of one file; `reported` is what it prints as malformed. */
    method CollectFile(lines: seq<string>, parsers: Parsers<G, V>) returns (reported: seq<string>)
      modifies this
      ensures out == Collected(old(out), lines, parsers)
      ensures reported == MalformedLines(lines, parsers)
    {
      ghost var start := out;
      reported := [];
      var i := 0;
      while i < |lines|
        invariant 0 <= i <= |lines|
        invariant out == Collected(start, lines[..i], parsers)
        invariant reported == MalformedLines(lines[..i], parsers)
      {
        assert lines[..i + 1] == lines[..i] + [lines[i]];
        CollectedSnoc(start, lines[..i], lines[i], parsers);
        var line := Strip(lines[i]);
        if line == [] || line[..1] == "=" {
          assert Classify(lines[i], parsers) == Skipped;
          i := i + 1;
          continue;
        }
        var parsed := ParseLine(line, parsers);
        if parsed.Err? {
          assert Classify(lines[i], parsers) == Malformed(line);
          reported := reported + [line];
          i := i + 1;
          continue;
        }
        var key := KeyOf(parsed.value);
        assert Classify(lines[i], parsers) == Entry(key, parsed.value.value);
        var valList := Lookup(out, key);
        valList := valList + [parsed.value.value];
        out := out[key := valList];
        i := i + 1;
      }
      assert lines[..|lines|] == lines;
    }

    /** collect_files: collect_file on each file in turn. */
    method CollectFiles(files: seq<seq<string>>, parsers: Parsers<G, V>) returns (reported: seq<string>)
      modifies this
      ensures out == Collected(old(out), Concat(files), parsers)
      ensures reported == MalformedLines(Concat(files), parsers)
    {
      ghost var start := out;
      reported := [];
      var i := 0;
      while i < |files|
        invariant 0 <= i <= |files|
        invariant out == Collected(start, Concat(files[..i]), parsers)
        invariant reported == MalformedLines(Concat(files[..i]), parsers)
      {
        assert files[..i + 1][..i] == files[..i];
        assert Concat(files[..i + 1]) == Concat(files[..i]) + files[i];
        var more := CollectFile(files[i], parsers);
        CollectedAppend(start, Concat(files[..i]), files[i], parsers);
        reported := reported + more;
        i := i + 1;
      }
      assert files[..|files|] == files;
    }
  }
}

/** The `packages:` section of a lockfile, read line by line without a YAML parser. */
module Lockfile {
  import opened Options
  import opened Text

  datatype Package = Package(name: string, version: string)

  const NEWLINE := '\n'

  predicate Space(c: char) {
    || c == ' ' || '\t' <= c <= '\r' || c == '\U{A0}' || c == '\U{1680}' || '\U{2000}' <= c <= '\U{200A}'
    || c == '\U{2028}' || c == '\U{2029}' || c == '\U{202F}' || c == '\U{205F}' || c == '\U{3000}' || c == '\U{FEFF}'
  }

  /** What `.` in a pattern does not match. */
  predicate EndsLine(c: char) { c == '\n' || c == '\r' || c == '\U{2028}' || c == '\U{2029}' }

  /** `/^\S/` */
  predicate Outdented(line: string) { line != "" && !Space(line[0]) }

  /** `/^ {2}'?([^\s'].*?)'?:$/`, its one group: two spaces, a quote or none, then as little as leaves
      a quote or none and the colon at the end. */
  function Key(line: string): Option<string> {
    if !("  " <= line) then None else Unquoted(WithoutFirstQuote(line[2..]))
  }

  function WithoutFirstQuote(s: string): string { if s != "" && s[0] == '\'' then s[1..] else s }

  function WithoutLastQuote(s: string): string {
    if |s| > 1 && s[|s| - 1] == '\'' then s[..|s| - 1] else s
  }

  predicate BeginsKey(c: char) { !Space(c) && c != '\'' }

  predicate OneLine(s: string) { forall i :: 1 <= i < |s| ==> !EndsLine(s[i]) }

  function Unquoted(rest: string): Option<string> {
    if |rest| < 2 || !BeginsKey(rest[0]) || rest[|rest| - 1] != ':' then None
    else
      var key := WithoutLastQuote(rest[..|rest| - 1]);
      if OneLine(key) then Some(key) else None
  }

  /** A line that holds a key, put together: what stands in the pattern's group cannot begin with a space or a
      quote, holds no line end behind its first character, and leaves a last quote to stand outside it. */
  ghost predicate Keyed(line: string, open: string, key: string, close: string) {
    && (open == "" || open == "'") && (close == "" || close == "'")
    && line == "  " + open + (key + close + ":")
    && KeyText(key) && (close == "" ==> key[|key| - 1] != '\'')
  }

  predicate KeyText(key: string) {
    && key != "" && key[0] !in WHITE && key[0] != '\''
    && forall i :: 1 <= i < |key| ==> key[i] !in "\n\r\U{2028}\U{2029}"
  }

  lemma KeyTextIs(key: string)
    ensures KeyText(key) <==> key != "" && BeginsKey(key[0]) && OneLine(key)
  {
    if key != "" { SpaceIs(key[0]); }
    forall i | 1 <= i < |key| ensures key[i] in "\n\r\U{2028}\U{2029}" <==> EndsLine(key[i]) { SpaceIs(key[i]); }
  }

  /** `\s` */
  const WHITE := "\t\n\U{B}\U{C}\r \U{A0}\U{1680}\U{2000}\U{2001}\U{2002}\U{2003}\U{2004}\U{2005}\U{2006}\U{2007}"
                 + "\U{2008}\U{2009}\U{200A}\U{2028}\U{2029}\U{202F}\U{205F}\U{3000}\U{FEFF}"

  lemma SpaceIs(c: char)
    ensures Space(c) <==> c in WHITE
    ensures EndsLine(c) <==> c in "\n\r\U{2028}\U{2029}"
  {
  }

  /** The test of a line and its group amount to putting a line together. */
  lemma KeyIs(line: string, key: string)
    ensures Key(line) == Some(key) <==> exists open, close :: Keyed(line, open, key, close)
  {
    if Key(line) == Some(key) { var open, close := KeyTaken(line, key); }
    if open, close :| Keyed(line, open, key, close) { KeyGiven(line, open, key, close); }
  }

  lemma KeyTaken(line: string, key: string) returns (open: string, close: string)
    requires Key(line) == Some(key)
    ensures Keyed(line, open, key, close)
  {
    var tail := line[2..];
    var rest := WithoutFirstQuote(tail);
    open := QuoteTaken(tail);
    close := GroupTaken(rest, key);
    PutTogether(line, tail, open, key + close + ":");
  }

  lemma QuoteTaken(s: string) returns (open: string)
    ensures (open == "" || open == "'") && s == open + WithoutFirstQuote(s)
  {
    open := if WithoutFirstQuote(s) == s then "" else "'";
  }

  lemma PutTogether(line: string, tail: string, open: string, rest: string)
    requires "  " <= line && tail == line[2..] && tail == open + rest
    ensures line == "  " + open + rest
  {
    assert line == line[..2] + tail;
  }

  lemma GroupTaken(rest: string, key: string) returns (close: string)
    requires Unquoted(rest) == Some(key)
    ensures (close == "" || close == "'") && rest == key + close + ":" && KeyText(key)
    ensures close == "" ==> key[|key| - 1] != '\''
  {
    var body := rest[..|rest| - 1];
    close := if key == body then "" else "'";
    assert rest == body + ":" && body == key + close && body[0] == rest[0];
    KeyTextIs(key);
  }

  lemma KeyGiven(line: string, open: string, key: string, close: string)
    requires Keyed(line, open, key, close)
    ensures Key(line) == Some(key)
  {
    var rest := key + close + ":";
    assert line[2..] == open + rest && rest[0] == key[0];
    assert WithoutFirstQuote(line[2..]) == rest;
    GroupGiven(rest, key, close);
  }

  lemma GroupGiven(rest: string, key: string, close: string)
    requires (close == "" || close == "'") && rest == key + close + ":" && KeyText(key)
    requires close == "" ==> key[|key| - 1] != '\''
    ensures Unquoted(rest) == Some(key)
  {
    assert rest[..|rest| - 1] == key + close && rest[0] == key[0];
    assert WithoutLastQuote(key + close) == key;
    KeyTextIs(key);
  }

  /** `key.lastIndexOf('@')` */
  function LastAt(key: string): (at: int)
    ensures -1 <= at < |key|
  {
    LastAtBefore(key, |key|)
  }

  function LastAtBefore(key: string, n: nat): (at: int)
    requires n <= |key|
    ensures -1 <= at < n
  {
    if n == 0 then -1 else if key[n - 1] == '@' then n - 1 else LastAtBefore(key, n - 1)
  }

  /** A key read as a name and a version; a scope's own `@` at the start does not count. */
  function Entry(line: string): seq<Package> {
    match Key(line)
    case None => []
    case Some(key) =>
      var at := LastAt(key);
      if at <= 0 then [] else [Package(key[..at], key[at + 1..])]
  }

  /** What the lines from the i-th on give, up to one that stops. */
  function Collect<L, T>(lines: seq<L>, i: nat, stops: L -> bool, entry: L -> seq<T>): seq<T>
    decreases |lines| - i
  {
    if i >= |lines| || stops(lines[i]) then [] else entry(lines[i]) + Collect(lines, i + 1, stops, entry)
  }

  lemma CollectsOne<L, T>(found: seq<T>, lines: seq<L>, i: nat, stops: L -> bool, entry: L -> seq<T>)
    requires i < |lines| && !stops(lines[i])
    ensures found + Collect(lines, i, stops, entry) == found + entry(lines[i]) + Collect(lines, i + 1, stops, entry)
  {
    assert found + entry(lines[i]) + Collect(lines, i + 1, stops, entry)
        == found + (entry(lines[i]) + Collect(lines, i + 1, stops, entry));
  }

  /** The entries of the lines up to the next section. */
  function Entries(lines: seq<string>, i: nat): seq<Package> { Collect(lines, i, Outdented, Entry) }

  function IndexOf(lines: seq<string>, line: string): int {
    if lines == [] then -1
    else if lines[0] == line then 0
    else
      var rest := IndexOf(lines[1..], line);
      if rest < 0 then -1 else rest + 1
  }

  lemma {:induction false} IndexOfIs(before: seq<string>, line: string, after: seq<string>)
    requires line !in before
    ensures IndexOf(before + [line] + after, line) == |before|
  {
    if before == [] {
      assert (before + [line] + after)[0] == line;
    } else {
      assert (before + [line] + after)[1..] == before[1..] + [line] + after;
      IndexOfIs(before[1..], line, after);
    }
  }

  function Read(text: string): seq<Package> {
    var lines := Split(text, NEWLINE);
    var start := IndexOf(lines, "packages:");
    if start < 0 then [] else Entries(lines, start + 1)
  }

  method ReadEntry(line: string) returns (entry: seq<Package>)
    ensures entry == Entry(line)
  {
    var key := Key(line);
    if key.None? { return []; }
    var at := LastAt(key.value);
    if at <= 0 { return []; }
    entry := [Package(key.value[..at], key.value[at + 1..])];
  }

  method ReadSection(lines: seq<string>, from: nat) returns (found: seq<Package>)
    ensures found == Entries(lines, from)
  {
    found := [];
    var i := from;
    while i < |lines|
      invariant i >= from && Entries(lines, from) == found + Entries(lines, i)
    {
      var line := lines[i];
      if Outdented(line) { break; }
      CollectsOne(found, lines, i, Outdented, Entry);
      i := i + 1;
      var entry := ReadEntry(line);
      found := found + entry;
    }
  }

  method LockedPackages(text: string) returns (found: seq<Package>)
    ensures found == Read(text)
  {
    var lines := Split(text, NEWLINE);
    var start := IndexOf(lines, "packages:");
    if start < 0 { return []; }
    found := ReadSection(lines, start + 1);
  }

  // ----- laying lines out and collecting them -----

  /** A line that gives a value, and lines below it that give nothing. */
  datatype Block<L, T> = Block(head: L, value: T, below: seq<L>)

  function Layout<L, T>(blocks: seq<Block<L, T>>): seq<L> {
    if blocks == [] then [] else [blocks[0].head] + blocks[0].below + Layout(blocks[1..])
  }

  ghost predicate GivesNothing<L, T>(lines: seq<L>, stops: L -> bool, entry: L -> seq<T>) {
    forall k :: 0 <= k < |lines| ==> !stops(lines[k]) && entry(lines[k]) == []
  }

  ghost predicate Gives<L, T>(b: Block<L, T>, stops: L -> bool, entry: L -> seq<T>) {
    !stops(b.head) && entry(b.head) == [b.value] && GivesNothing(b.below, stops, entry)
  }

  lemma {:induction false} SkipsLines<L, T>(lines: seq<L>, i: nat, j: nat, stops: L -> bool, entry: L -> seq<T>)
    requires i <= j <= |lines| && GivesNothing(lines[i..j], stops, entry)
    ensures Collect(lines, i, stops, entry) == Collect(lines, j, stops, entry)
    decreases j - i
  {
    if i < j {
      assert lines[i..j][0] == lines[i] && lines[i..j][1..] == lines[i + 1..j];
      SkipsLines(lines, i + 1, j, stops, entry);
    }
  }

  /** Blocks laid out collect to their values. */
  lemma {:induction false} LayoutCollects<L, T>(lines: seq<L>, at: nat, blocks: seq<Block<L, T>>, after: seq<L>,
                                                stops: L -> bool, entry: L -> seq<T>)
    requires at <= |lines| && lines[at..] == Layout(blocks) + after
    requires forall k :: 0 <= k < |blocks| ==> Gives(blocks[k], stops, entry)
    requires after != [] ==> stops(after[0])
    ensures Collect(lines, at, stops, entry) == Values(blocks)
    decreases |blocks|
  {
    var rest := lines[at..];
    if blocks == [] {
      assert rest == after;
      assert at < |lines| ==> lines[at] == after[0];
    } else {
      var below, next := blocks[0].below, at + 1 + |blocks[0].below|;
      assert rest == [blocks[0].head] + below + (Layout(blocks[1..]) + after);
      assert lines[at] == rest[0];
      assert lines[at + 1..next] == rest[1..1 + |below|] == below;
      assert lines[next..] == rest[1 + |below|..] == Layout(blocks[1..]) + after;
      SkipsLines(lines, at + 1, next, stops, entry);
      LayoutCollects(lines, next, blocks[1..], after, stops, entry);
    }
  }

  function Values<L, T>(blocks: seq<Block<L, T>>): seq<T> {
    if blocks == [] then [] else [blocks[0].value] + Values(blocks[1..])
  }

  lemma SectionCollects<L, T>(lines: seq<L>, before: seq<L>, header: L, first: seq<L>, blocks: seq<Block<L, T>>,
                              after: seq<L>, stops: L -> bool, entry: L -> seq<T>)
    requires lines == before + [header] + first + Layout(blocks) + after
    requires GivesNothing(first, stops, entry)
    requires forall k :: 0 <= k < |blocks| ==> Gives(blocks[k], stops, entry)
    requires after != [] ==> stops(after[0])
    ensures Collect(lines, |before| + 1, stops, entry) == Values(blocks)
  {
    var start := |before| + 1;
    var at := start + |first|;
    assert lines[start..at] == first && lines[at..] == Layout(blocks) + after;
    SkipsLines(lines, start, at, stops, entry);
    LayoutCollects(lines, at, blocks, after, stops, entry);
  }

  // ----- the printer it reads back -----

  /** An entry as it stands in the file: its key quoted or bare, and the lines below it. */
  datatype Item = Item(package: Package, quoted: bool, below: seq<string>)

  /** The file's lines before the section, the section, and the sections after it. */
  datatype Document = Document(before: seq<string>, first: seq<string>, items: seq<Item>, after: seq<string>)

  function KeyOf(p: Package): string { p.name + "@" + p.version }

  function Quote(key: string, quoted: bool): string { if quoted then "'" + key + "'" + ":" else key + ":" }

  function KeyLine(i: Item): string { "  " + Quote(KeyOf(i.package), i.quoted) }

  function Blocks(items: seq<Item>): seq<Block<string, Package>> {
    seq(|items|, k requires 0 <= k < |items| => Block(KeyLine(items[k]), items[k].package, items[k].below))
  }

  function Packages(items: seq<Item>): seq<Package> {
    seq(|items|, k requires 0 <= k < |items| => items[k].package)
  }

  function Lines(d: Document): seq<string> { d.before + ["packages:"] + d.first + Layout(Blocks(d.items)) + d.after }

  function Print(d: Document): string { Join(Lines(d), '\n') }

  /** An attribute, which stands deeper than a key, or a blank line. */
  predicate Deeper(line: string) { line == "" || "   " <= line }

  /** A name that begins like a key, and a version without an `@`. */
  predicate Readable(p: Package) {
    && p.name != "" && BeginsKey(p.name[0])
    && '@' !in p.version
    && (forall i :: 0 <= i < |p.name| ==> !EndsLine(p.name[i]))
    && (forall i :: 0 <= i < |p.version| ==> !EndsLine(p.version[i]))
    && (p.version != "" ==> p.version[|p.version| - 1] != '\'')
  }

  ghost predicate Valid(d: Document) {
    && "packages:" !in d.before && AllFree(Lines(d), NEWLINE)
    && (forall i :: 0 <= i < |d.first| ==> Deeper(d.first[i]))
    && (forall k :: 0 <= k < |d.items| ==> Readable(d.items[k].package))
    && (forall k :: 0 <= k < |d.items| ==> forall i :: 0 <= i < |d.items[k].below| ==> Deeper(d.items[k].below[i]))
    && (d.after != [] ==> Outdented(d.after[0]))
  }

  lemma {:induction false} LastAtIsLast(key: string, n: nat)
    requires n <= |key|
    ensures var at := LastAtBefore(key, n);
            (at >= 0 ==> key[at] == '@') && forall i :: at < i < n ==> key[i] != '@'
  {
    if n > 0 { LastAtIsLast(key, n - 1); }
  }

  /** A key reads back as its name and version exactly when it has a name and the version no `@`. */
  lemma KeySplits(name: string, version: string)
    ensures var key := name + "@" + version;
            var at := LastAt(key);
            (at > 0 && key[..at] == name && key[at + 1..] == version) <==> name != "" && '@' !in version
  {
    var key := name + "@" + version;
    assert key[|name|] == '@' && key[..|name|] == name && key[|name| + 1..] == version;
    LastAtIsLast(key, |key|);
    if '@' !in version {
      forall i | |name| < i < |key| ensures key[i] != '@' { assert key[i] == version[i - |name| - 1]; }
    } else {
      var i :| 0 <= i < |version| && version[i] == '@';
      assert key[|name| + 1 + i] == '@';
    }
  }

  lemma UnquotedIs(key: string, quoted: bool)
    requires key != "" && BeginsKey(key[0]) && OneLine(key) && key[|key| - 1] != '\''
    ensures Unquoted(WithoutFirstQuote(Quote(key, quoted))) == Some(key)
  {
    var quote := if quoted then "'" else "";
    var rest := key + quote + ":";
    if quoted { assert Quote(key, quoted)[1..] == rest; }
    assert WithoutFirstQuote(Quote(key, quoted)) == rest;
    assert rest[0] == key[0] && rest[..|rest| - 1] == key + quote;
    assert WithoutLastQuote(key + quote) == key;
  }

  lemma KeyOfPackage(p: Package)
    requires Readable(p)
    ensures var key := KeyOf(p); BeginsKey(key[0]) && OneLine(key) && key[|key| - 1] != '\''
  {
    var key := KeyOf(p);
    assert key[0] == p.name[0] && key[|key| - 1] == if p.version == "" then '@' else p.version[|p.version| - 1];
    forall k | 1 <= k < |key| ensures !EndsLine(key[k]) {
      if k < |p.name| {
        assert key[k] == p.name[k];
      } else if k > |p.name| {
        assert key[k] == p.version[k - |p.name| - 1];
      }
    }
  }

  lemma KeyAfterIndent(s: string)
    ensures Key("  " + s) == Unquoted(WithoutFirstQuote(s)) && !Outdented("  " + s)
  {
    assert ("  " + s)[2..] == s;
  }

  lemma KeyOfKeyLine(i: Item)
    requires Readable(i.package)
    ensures Key(KeyLine(i)) == Some(KeyOf(i.package)) && !Outdented(KeyLine(i))
  {
    KeyOfPackage(i.package);
    UnquotedIs(KeyOf(i.package), i.quoted);
    KeyAfterIndent(Quote(KeyOf(i.package), i.quoted));
  }

  lemma KeyLineReadsBack(i: Item)
    requires Readable(i.package)
    ensures Entry(KeyLine(i)) == [i.package] && !Outdented(KeyLine(i))
  {
    KeyOfKeyLine(i);
    KeySplits(i.package.name, i.package.version);
  }

  lemma DeeperReadsNothing(line: string)
    requires Deeper(line)
    ensures Entry(line) == [] && !Outdented(line)
  {
    if line != "" { assert line[2..][0] == line[2] == ' ' && line[0] == ' '; }
  }

  lemma {:induction false} ValuesOfBlocks(items: seq<Item>)
    ensures Values(Blocks(items)) == Packages(items)
  {
    if items != [] {
      ValuesOfBlocks(items[1..]);
      assert Blocks(items)[1..] == Blocks(items[1..]);
      assert Packages(items) == [items[0].package] + Packages(items[1..]);
    }
  }

  lemma BlockGives(i: Item)
    requires Readable(i.package) && forall k :: 0 <= k < |i.below| ==> Deeper(i.below[k])
    ensures Gives(Block(KeyLine(i), i.package, i.below), Outdented, Entry)
  {
    KeyLineReadsBack(i);
    forall k | 0 <= k < |i.below| { DeeperReadsNothing(i.below[k]); }
  }

  lemma LinesGive(d: Document)
    requires Valid(d)
    ensures GivesNothing(d.first, Outdented, Entry)
    ensures forall k :: 0 <= k < |d.items| ==> Gives(Blocks(d.items)[k], Outdented, Entry)
  {
    forall i | 0 <= i < |d.first| { DeeperReadsNothing(d.first[i]); }
    forall k | 0 <= k < |d.items| ensures Gives(Blocks(d.items)[k], Outdented, Entry) { BlockGives(d.items[k]); }
  }

  lemma ReadStartsBelow(lines: seq<string>, before: seq<string>, rest: seq<string>)
    requires "packages:" !in before && lines == before + ["packages:"] + rest && AllFree(lines, NEWLINE)
    ensures Read(Join(lines, NEWLINE)) == Entries(lines, |before| + 1)
  {
    SplitOfJoin(lines, NEWLINE);
    IndexOfIs(before, "packages:", rest);
  }

  lemma SectionOf(d: Document)
    ensures Lines(d) == d.before + ["packages:"] + (d.first + Layout(Blocks(d.items)) + d.after)
  {}

  /** What is printed reads back, entry for entry and in order, whatever stands around the section. */
  lemma PrintedReadsBack(d: Document)
    requires Valid(d)
    ensures Read(Print(d)) == Packages(d.items)
  {
    LinesGive(d);
    SectionOf(d);
    ReadStartsBelow(Lines(d), d.before, d.first + Layout(Blocks(d.items)) + d.after);
    SectionCollects(Lines(d), d.before, "packages:", d.first, Blocks(d.items), d.after, Outdented, Entry);
    ValuesOfBlocks(d.items);
  }
}

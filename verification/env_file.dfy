/** The saved cluster configuration: what is written to the file, what is read back from it,
    and the list of nodes kept in one of its values. */
module EnvFile {
  import opened Common

  // ---------------------------------------------------------------- characters

  /** What strip() removes: the white space of Unicode. */
  predicate IsSpace(c: char) {
    var u := c as int;
    || 9 <= u <= 13 || 28 <= u <= 32 || u == 0x85 || u == 0xA0 || u == 0x1680 || 0x2000 <= u <= 0x200A
    || u == 0x2028 || u == 0x2029 || u == 0x202F || u == 0x205F || u == 0x3000
  }

  predicate IsDouble(c: char) { c == '\"' }

  predicate IsSingle(c: char) { c == '\'' }

  /** Where a file opened as text ends a line; the empty line between '\r' and '\n' does no harm. */
  predicate IsBreak(c: char) { c == '\n' || c == '\r' }

  predicate IsComma(c: char) { c == ',' }

  predicate Free(s: string, p: char -> bool) { forall i :: 0 <= i < |s| ==> !p(s[i]) }

  // ---------------------------------------------------------------- stripping

  function TrimLeft(s: string, p: char -> bool): (r: string)
    ensures |r| <= |s|
  {
    if s != "" && p(s[0]) then TrimLeft(s[1..], p) else s
  }

  function TrimRight(s: string, p: char -> bool): (r: string)
    ensures |r| <= |s|
  {
    if s != "" && p(s[|s| - 1]) then TrimRight(s[..|s| - 1], p) else s
  }

  /** strip() */
  function Trim(s: string, p: char -> bool): (r: string)
    ensures |r| <= |s|
  {
    TrimRight(TrimLeft(s, p), p)
  }

  /** Nothing at either end to strip. */
  predicate Trimmed(s: string, p: char -> bool) {
    s == "" || (!p(s[0]) && !p(s[|s| - 1]))
  }

  lemma {:induction false} TrimLeftIsSuffix(s: string, p: char -> bool)
    ensures var r := TrimLeft(s, p); r == s[|s| - |r|..] && (r == "" || !p(r[0]))
  {
    if s != "" && p(s[0]) {
      TrimLeftIsSuffix(s[1..], p);
    }
  }

  lemma {:induction false} TrimRightIsPrefix(s: string, p: char -> bool)
    ensures var r := TrimRight(s, p); r == s[..|r|] && (r == "" || !p(r[|r| - 1]))
  {
    if s != "" && p(s[|s| - 1]) {
      TrimRightIsPrefix(s[..|s| - 1], p);
    }
  }

  /** What is left is a stretch of the string with nothing at either end to strip. */
  lemma TrimIsStretch(s: string, p: char -> bool)
    ensures Trimmed(Trim(s, p), p)
    ensures forall q: char -> bool :: Free(s, q) ==> Free(Trim(s, p), q)
  {
    TrimLeftIsSuffix(s, p);
    TrimRightIsPrefix(TrimLeft(s, p), p);
  }

  /** Stripping changes nothing but what needs it, and then makes it shorter. */
  lemma TrimSameIff(s: string, p: char -> bool)
    ensures Trim(s, p) == s <==> Trimmed(s, p)
    ensures |Trim(s, p)| == |s| ==> Trim(s, p) == s
  {
    TrimLeftIsSuffix(s, p);
    TrimRightIsPrefix(TrimLeft(s, p), p);
  }

  /** Stripping on the right stops at a character that is kept. */
  lemma {:induction false} TrimRightStops(a: string, b: string, p: char -> bool)
    requires a != "" && !p(a[|a| - 1])
    ensures TrimRight(a + b, p) == a + TrimRight(b, p)
  {
    if b == "" {
      assert a + b == a;
    } else {
      assert (a + b)[..|a + b| - 1] == a + b[..|b| - 1];
      TrimRightStops(a, b[..|b| - 1], p);
    }
  }

  lemma {:induction false} TrimLeftAppend(s: string, c: char, p: char -> bool)
    requires p(c)
    ensures TrimLeft(s + [c], p) == if TrimLeft(s, p) == "" then "" else TrimLeft(s, p) + [c]
  {
    if s != "" {
      assert (s + [c])[1..] == s[1..] + [c];
      TrimLeftAppend(s[1..], c, p);
    }
  }

  lemma TrimDropLast(s: string, c: char, p: char -> bool)
    requires p(c)
    ensures Trim(s + [c], p) == Trim(s, p)
  {
    TrimLeftAppend(s, c, p);
    var left := TrimLeft(s, p);
    assert (left + [c])[..|left|] == left;
  }

  /** What is stripped on the right first would be stripped anyway. */
  lemma {:induction false} TrimAfterTrimRight(s: string, p: char -> bool)
    ensures Trim(TrimRight(s, p), p) == Trim(s, p)
  {
    if s != "" && p(s[|s| - 1]) {
      var init := s[..|s| - 1];
      TrimAfterTrimRight(init, p);
      TrimDropLast(init, s[|s| - 1], p);
      assert s == init + [s[|s| - 1]];
    }
  }

  // ---------------------------------------------------------------- splitting and joining

  function Split(s: string, sep: char -> bool): (pieces: seq<string>)
    ensures pieces != [] && forall i :: 0 <= i < |pieces| ==> Free(pieces[i], sep)
  {
    if s == "" then [""]
    else
      var rest := Split(s[1..], sep);
      if sep(s[0]) then [""] + rest else [[s[0]] + rest[0]] + rest[1..]
  }

  function Join(pieces: seq<string>, sep: char): string {
    if pieces == [] then "" else if |pieces| == 1 then pieces[0] else pieces[0] + [sep] + Join(pieces[1..], sep)
  }

  lemma {:induction false} SplitAtFirst(piece: string, c: char, rest: string, sep: char -> bool)
    requires Free(piece, sep) && sep(c)
    ensures Split(piece + [c] + rest, sep) == [piece] + Split(rest, sep)
  {
    var s := piece + [c] + rest;
    if piece == "" {
      assert s[1..] == rest;
    } else {
      assert s[1..] == piece[1..] + [c] + rest;
      SplitAtFirst(piece[1..], c, rest, sep);
      assert [piece[0]] + piece[1..] == piece;
    }
  }

  lemma {:induction false} SplitAppend(a: string, c: char, b: string, sep: char -> bool)
    requires sep(c)
    ensures Split(a + [c] + b, sep) == Split(a, sep) + Split(b, sep)
  {
    var s := a + [c] + b;
    if a == "" {
      assert s[1..] == b;
    } else {
      assert s[1..] == a[1..] + [c] + b;
      SplitAppend(a[1..], c, b, sep);
    }
  }

  lemma {:induction false} SplitWhole(piece: string, sep: char -> bool)
    requires Free(piece, sep)
    ensures Split(piece, sep) == [piece]
  {
    if piece != "" {
      SplitWhole(piece[1..], sep);
      assert [piece[0]] + piece[1..] == piece;
    }
  }

  lemma {:induction false} SplitUndoesJoin(pieces: seq<string>, c: char, sep: char -> bool)
    requires pieces != [] && sep(c) && forall i :: 0 <= i < |pieces| ==> Free(pieces[i], sep)
    ensures Split(Join(pieces, c), sep) == pieces
  {
    if |pieces| == 1 {
      SplitWhole(pieces[0], sep);
    } else {
      SplitAtFirst(pieces[0], c, Join(pieces[1..], c), sep);
      SplitUndoesJoin(pieces[1..], c, sep);
    }
  }

  // ---------------------------------------------------------------- one line

  /** A value is quoted when it holds a space or a comma. */
  predicate NeedsQuotes(value: string) { ' ' in value || ',' in value }

  function Quote(value: string): string {
    if NeedsQuotes(value) then "\"" + value + "\"" else value
  }

  function Unquote(written: string): string {
    Trim(Trim(Trim(written, IsSpace), IsDouble), IsSingle)
  }

  function EntryLine(key: string, value: string): string { key + ['='] + Quote(value) }

  /** The part before the first occurrence of c, or everything. */
  function UpTo(s: string, c: char): (r: string)
    ensures |r| <= |s| && r == s[..|r|] && c !in r
    ensures c in s <==> |r| < |s|
    ensures |r| < |s| ==> s[|r|] == c
  {
    if s == "" || s[0] == c then "" else [s[0]] + UpTo(s[1..], c)
  }

  datatype Entry = Entry(key: string, value: string)

  /** The two sides of the first equals sign of a stripped line, unless it is to be skipped. */
  function CutLine(line: string): Option<Entry> {
    if line != "" && line[0] != '#' && '=' in line then
      var key := UpTo(line, '=');
      Some(Entry(key, line[|key| + 1..]))
    else None
  }

  function ReadLine(raw: string): Option<Entry> {
    match CutLine(Trim(raw, IsSpace))
    case None => None
    case Some(cut) => Some(Entry(Trim(cut.key, IsSpace), Unquote(cut.value)))
  }

  /** Keys that can stand before an equals sign. */
  predicate GoodKey(key: string) {
    && Free(key, IsBreak) && Trimmed(key, IsSpace) && '=' !in key && (key == "" || key[0] != '#')
  }

  /** Values that come through quoting: no line break, no quotes at the ends, and no white space
      there either unless a space or a comma has the value quoted. */
  predicate GoodValue(value: string) {
    && Free(value, IsBreak) && Trimmed(value, IsDouble) && Trimmed(value, IsSingle)
    && (NeedsQuotes(value) || Trimmed(value, IsSpace))
  }

  lemma {:induction false} UpToEquals(key: string, rest: string)
    requires '=' !in key
    ensures UpTo(key + ['='] + rest, '=') == key
  {
    if key != "" {
      UpToEquals(key[1..], rest);
      assert (key + ['='] + rest)[1..] == key[1..] + ['='] + rest;
    }
  }

  lemma TrimLine(key: string, written: string)
    requires Trimmed(key, IsSpace)
    ensures Trim(key + ['='] + written, IsSpace) == key + ['='] + TrimRight(written, IsSpace)
  {
    var line := key + ['='] + written;
    assert line[0] == if key == "" then '=' else key[0];
    TrimRightStops(key + ['='], written, IsSpace);
  }

  lemma CutAtEquals(key: string, rest: string)
    requires '=' !in key && (key == "" || key[0] != '#')
    ensures CutLine(key + ['='] + rest) == Some(Entry(key, rest))
  {
    var line := key + ['='] + rest;
    UpToEquals(key, rest);
    assert line[0] == if key == "" then '=' else key[0];
    assert line[|key|] == '=';
  }

  /** The line of an entry gives back its key, and its value less what is stripped from it. */
  lemma EntryReadsBack(key: string, value: string)
    requires GoodKey(key)
    ensures ReadLine(EntryLine(key, value)) == Some(Entry(key, Unquote(Quote(value))))
  {
    var written := Quote(value);
    TrimLine(key, written);
    CutAtEquals(key, TrimRight(written, IsSpace));
    TrimAfterTrimRight(written, IsSpace);
    TrimSameIff(key, IsSpace);
  }

  lemma {:induction false} TrimQuotes(value: string)
    requires value != ""
    ensures Trim("\"" + value + "\"", IsDouble) == Trim(value, IsDouble)
  {
    TrimDropLast("\"" + value, '\"', IsDouble);
    assert ("\"" + value)[1..] == value;
  }

  lemma UnquoteUndoesQuoteIff(value: string)
    requires Free(value, IsBreak)
    ensures Unquote(Quote(value)) == value <==> GoodValue(value)
  {
    var written := Quote(value);
    var bare := Trim(written, IsSpace);
    TrimSameIff(written, IsSpace);
    if NeedsQuotes(value) {
      assert bare == written;
      TrimQuotes(value);
      TrimTwiceSameIff(value);
    } else {
      TrimTwiceSameIff(bare);
    }
  }

  lemma TrimTwiceSameIff(value: string)
    ensures |Trim(Trim(value, IsDouble), IsSingle)| <= |value|
    ensures Trim(Trim(value, IsDouble), IsSingle) == value <==> Trimmed(value, IsDouble) && Trimmed(value, IsSingle)
  {
    TrimSameIff(value, IsDouble);
    TrimSameIff(Trim(value, IsDouble), IsSingle);
  }

  lemma UnquoteKeepsFree(written: string)
    requires Free(written, IsBreak)
    ensures Free(Unquote(written), IsBreak)
  {
    TrimIsStretch(written, IsSpace);
    TrimIsStretch(Trim(written, IsSpace), IsDouble);
    TrimIsStretch(Trim(Trim(written, IsSpace), IsDouble), IsSingle);
  }

  /** Only keys and values of this kind are ever read. */
  lemma OnlyGoodKeysAreRead(raw: string)
    requires Free(raw, IsBreak) && ReadLine(raw).Some?
    ensures GoodKey(ReadLine(raw).value.key) && Free(ReadLine(raw).value.value, IsBreak)
  {
    var line := Trim(raw, IsSpace);
    TrimIsStretch(raw, IsSpace);
    var cut := CutLine(line).value;
    KeyOfLine(line, cut.key);
    UnquoteKeepsFree(cut.value);
  }

  lemma KeyOfLine(line: string, key: string)
    requires Free(line, IsBreak) && line != "" && line[0] != '#' && Trimmed(line, IsSpace)
    requires |key| < |line| && key == line[..|key|] && '=' !in key
    ensures GoodKey(Trim(key, IsSpace))
  {
    TrimIsStretch(key, IsSpace);
    if key != "" {
      // the key starts where the line does, which is no white space
      assert key[0] == line[0];
      assert TrimLeft(key, IsSpace) == key;
      TrimRightIsPrefix(key, IsSpace);
    }
  }

  // ---------------------------------------------------------------- lines as they may be written by hand

  lemma {:induction false} TrimLeftSkips(a: string, s: string, p: char -> bool)
    requires forall i :: 0 <= i < |a| ==> p(a[i])
    ensures TrimLeft(a + s, p) == TrimLeft(s, p)
  {
    if a == "" {
      assert a + s == s;
    } else {
      assert (a + s)[1..] == a[1..] + s;
      TrimLeftSkips(a[1..], s, p);
    }
  }

  lemma {:induction false} TrimRightSkips(s: string, b: string, p: char -> bool)
    requires forall i :: 0 <= i < |b| ==> p(b[i])
    ensures TrimRight(s + b, p) == TrimRight(s, p)
  {
    if b == "" {
      assert s + b == s;
    } else {
      assert (s + b)[..|s + b| - 1] == s + b[..|b| - 1];
      TrimRightSkips(s, b[..|b| - 1], p);
    }
  }

  /** Stripping takes off just what stands around. */
  lemma TrimPadded(a: string, s: string, b: string, p: char -> bool)
    requires (forall i :: 0 <= i < |a| ==> p(a[i])) && (forall i :: 0 <= i < |b| ==> p(b[i]))
    requires s != "" && Trimmed(s, p)
    ensures Trim(a + s + b, p) == s
  {
    assert a + s + b == a + (s + b);
    TrimLeftSkips(a, s + b, p);
    assert TrimLeft(s + b, p) == s + b;
    TrimRightSkips(s, b, p);
  }

  /** Spaces and tabs. */
  predicate IsBlank(s: string) { forall i :: 0 <= i < |s| ==> s[i] == ' ' || s[i] == '\t' }

  /** Letters or digits at both ends. */
  predicate HasPlainEnds(s: string) { s != "" && IsPlain(s[0]) && IsPlain(s[|s| - 1]) }

  predicate IsPlain(c: char) { 'a' <= c <= 'z' || 'A' <= c <= 'Z' || '0' <= c <= '9' }

  lemma PaddedLine(key: string, b: string, written: string)
    requires HasPlainEnds(key) && '=' !in key && IsBlank(b) && written != "" && !IsSpace(written[|written| - 1])
    ensures
      var line := key + b + ['='] + written;
      line != "" && Trimmed(line, IsSpace) && CutLine(line) == Some(Entry(key + b, written))
  {
    CutAtEquals(key + b, written);
    var line := key + b + ['='] + written;
    assert line[0] == key[0] && line[|line| - 1] == written[|written| - 1];
  }

  /** Space around the key, the value and the line does not matter, nor do one kind of quotes around the
      value. */
  lemma ReadsPadded(key: string, value: string, quote: string, a: string, b: string, c: string, d: string)
    requires HasPlainEnds(key) && '=' !in key && HasPlainEnds(value)
    requires IsBlank(a) && IsBlank(b) && IsBlank(c) && IsBlank(d)
    requires quote == "" || quote == "\"" || quote == "'"
    ensures ReadLine(a + (key + b + ['='] + (c + (quote + value + quote))) + d) == Some(Entry(key, value))
  {
    var written := c + (quote + value + quote);
    LastOfQuoted(c, value, quote);
    UnquotesPadded(value, quote, c);
    ReadsWritten(key, a, b, written, d);
  }

  lemma LastOfQuoted(c: string, value: string, quote: string)
    requires HasPlainEnds(value) && (quote == "" || quote == "\"" || quote == "'")
    ensures var written := c + (quote + value + quote); written != "" && !IsSpace(written[|written| - 1])
  {
  }

  lemma TrimKey(key: string, b: string)
    requires HasPlainEnds(key) && IsBlank(b)
    ensures Trim(key + b, IsSpace) == key
  {
    TrimPadded("", key, b, IsSpace);
    assert "" + key + b == key + b;
  }

  lemma ReadsTrimmed(raw: string, line: string, padded: string, key: string, written: string)
    requires Trim(raw, IsSpace) == line && CutLine(line) == Some(Entry(padded, written)) && Trim(padded, IsSpace) == key
    ensures ReadLine(raw) == Some(Entry(key, Unquote(written)))
  {
  }

  lemma ReadsWritten(key: string, a: string, b: string, written: string, d: string)
    requires HasPlainEnds(key) && '=' !in key && IsBlank(a) && IsBlank(b) && IsBlank(d)
    requires written != "" && !IsSpace(written[|written| - 1])
    ensures ReadLine(a + (key + b + ['='] + written) + d) == Some(Entry(key, Unquote(written)))
  {
    var padded := key + b;
    var line := padded + ['='] + written;
    PaddedLine(key, b, written);
    TrimPadded(a, line, d, IsSpace);
    TrimKey(key, b);
    ReadsTrimmed(a + line + d, line, padded, key, written);
  }

  lemma TrimAlready(s: string, p: char -> bool)
    requires Trimmed(s, p)
    ensures Trim(s, p) == s
  {
    TrimSameIff(s, p);
  }

  lemma UnquotesPadded(value: string, quote: string, c: string)
    requires HasPlainEnds(value) && IsBlank(c) && (quote == "" || quote == "\"" || quote == "'")
    ensures Unquote(c + (quote + value + quote)) == value
  {
    var written := quote + value + quote;
    assert written[0] == if quote == "" then value[0] else quote[0];
    LastOfQuoted("", value, quote);
    assert "" + written == written;
    TrimPadded(c, written, "", IsSpace);
    assert c + written + "" == c + written;
    UnquotesQuoted(value, quote, written);
  }

  lemma UnquotesQuoted(value: string, quote: string, written: string)
    requires HasPlainEnds(value) && (quote == "" || quote == "\"" || quote == "'") && written == quote + value + quote
    ensures Trim(Trim(written, IsDouble), IsSingle) == value
  {
    TrimAlready(value, IsSingle);
    if quote == "\"" {
      TrimPadded(quote, value, quote, IsDouble);
    } else {
      TrimAlready(written, IsDouble);
      if quote == "'" { TrimPadded(quote, value, quote, IsSingle); } else { assert written == value; }
    }
  }

  // ---------------------------------------------------------------- the whole file

  function AddLine(env: map<string, string>, line: string): map<string, string> {
    match ReadLine(line)
    case None => env
    case Some(entry) => env[entry.key := entry.value]
  }

  function LoadLines(lines: seq<string>): map<string, string> {
    if lines == [] then map[] else AddLine(LoadLines(lines[..|lines| - 1]), lines[|lines| - 1])
  }

  function Load(text: string): map<string, string> { LoadLines(Split(text, IsBreak)) }

  const BANNER := "# Auto-generated " + "by run-recipe.py " + "--discover"

  const HEADER := [BANNER, ""]

  function EntryLines(keys: seq<string>, env: map<string, string>): (r: seq<string>)
    requires forall i :: 0 <= i < |keys| ==> keys[i] in env
  {
    if keys == [] then []
    else
      var last := keys[|keys| - 1];
      EntryLines(keys[..|keys| - 1], env) + [EntryLine(last, env[last])]
  }

  /** The text of a file with these lines first, then the entries in the order of the keys. */
  function TextOf(header: seq<string>, keys: seq<string>, env: map<string, string>): string
    requires forall i :: 0 <= i < |keys| ==> keys[i] in env
  {
    Join(header + EntryLines(keys, env) + [""], '\n')
  }

  /** The keys of a map in some order. */
  ghost predicate Enumerates(keys: seq<string>, env: map<string, string>) {
    && (forall i :: 0 <= i < |keys| ==> keys[i] in env)
    && (forall k :: k in env ==> k in keys)
  }

  /** Whatever the file, loading gives keys and values of the kind that can be read. */
  lemma {:induction false} LoadedAreGood(lines: seq<string>, key: string)
    requires (forall i :: 0 <= i < |lines| ==> Free(lines[i], IsBreak)) && key in LoadLines(lines)
    ensures GoodKey(key) && Free(LoadLines(lines)[key], IsBreak)
  {
    if lines != [] {
      var init, last := lines[..|lines| - 1], lines[|lines| - 1];
      if key in LoadLines(init) {
        LoadedAreGood(init, key);
      }
      if ReadLine(last).Some? {
        OnlyGoodKeysAreRead(last);
      }
    }
  }

  ghost predicate Sets(read: Option<Entry>, key: string) { read.Some? && read.value.key == key }

  ghost predicate IsLastSet(read: seq<Option<Entry>>, i: nat, key: string, value: string) {
    && i < |read| && read[i] == Some(Entry(key, value))
    && forall j :: i < j < |read| ==> !Sets(read[j], key)
  }

  ghost function Fold(read: seq<Option<Entry>>): map<string, string> {
    if read == [] then map[]
    else
      var init, last := Fold(read[..|read| - 1]), read[|read| - 1];
      if last == None then init else init[last.value.key := last.value.value]
  }

  lemma {:induction false} FoldIsLast(read: seq<Option<Entry>>, key: string) returns (i: nat)
    ensures key in Fold(read) ==> IsLastSet(read, i, key, Fold(read)[key])
    ensures key !in Fold(read) ==> forall j :: 0 <= j < |read| ==> !Sets(read[j], key)
  {
    i := 0;
    if read != [] {
      var n: nat := |read| - 1;
      i := FoldIsLast(read[..n], key);
      assert forall j :: 0 <= j < n ==> read[..n][j] == read[j];
      if Sets(read[n], key) { i := n; }
    }
  }

  ghost function ReadAll(lines: seq<string>): (read: seq<Option<Entry>>)
    ensures |read| == |lines| && forall i :: 0 <= i < |lines| ==> read[i] == ReadLine(lines[i])
  {
    if lines == [] then [] else ReadAll(lines[..|lines| - 1]) + [ReadLine(lines[|lines| - 1])]
  }

  lemma {:induction false} LoadIsFold(lines: seq<string>)
    ensures LoadLines(lines) == Fold(ReadAll(lines))
  {
    if lines != [] {
      var n := |lines| - 1;
      LoadIsFold(lines[..n]);
      assert ReadAll(lines)[..n] == ReadAll(lines[..n]);
    }
  }

  /** A key is loaded exactly when some line sets it, and has the value of the last line that does. */
  lemma LoadedIsLast(lines: seq<string>, key: string) returns (i: nat)
    ensures key in LoadLines(lines) ==> IsLastSet(ReadAll(lines), i, key, LoadLines(lines)[key])
    ensures key !in LoadLines(lines) ==> forall j :: 0 <= j < |lines| ==> !Sets(ReadAll(lines)[j], key)
  {
    LoadIsFold(lines);
    i := FoldIsLast(ReadAll(lines), key);
  }

  /** What stands before and after a line feed or a carriage return is loaded as separate lines. */
  lemma BreaksSeparate(a: string, c: char, b: string)
    requires c == '\n' || c == '\r'
    ensures Load(a + [c] + b) == LoadLines(Split(a, IsBreak) + Split(b, IsBreak))
  {
    SplitAppend(a, c, b, IsBreak);
  }

  /** What good keys should load as. */
  ghost function Stored(keys: seq<string>, env: map<string, string>): (r: map<string, string>)
    requires forall i :: 0 <= i < |keys| ==> keys[i] in env
    ensures forall k :: k in r <==> k in keys
    ensures forall k :: k in r ==> r[k] == Unquote(Quote(env[k]))
  {
    if keys == [] then map[]
    else
      var last := keys[|keys| - 1];
      Stored(keys[..|keys| - 1], env)[last := Unquote(Quote(env[last]))]
  }

  lemma LoadAppend(lines: seq<string>, line: string)
    ensures LoadLines(lines + [line]) == AddLine(LoadLines(lines), line)
  {
    assert (lines + [line])[..|lines|] == lines;
  }

  lemma AppendAssociates<T>(a: seq<T>, b: seq<T>, x: T)
    ensures a + (b + [x]) == a + b + [x]
  {
  }

  lemma AddEntry(env: map<string, string>, key: string, value: string)
    requires GoodKey(key)
    ensures AddLine(env, EntryLine(key, value)) == env[key := Unquote(Quote(value))]
  {
    EntryReadsBack(key, value);
  }

  lemma {:induction false} LoadEntries(header: seq<string>, keys: seq<string>, env: map<string, string>)
    requires LoadLines(header) == map[]
    requires forall i :: 0 <= i < |keys| ==> keys[i] in env && GoodKey(keys[i])
    ensures LoadLines(header + EntryLines(keys, env)) == Stored(keys, env)
  {
    if keys == [] {
      assert header + EntryLines(keys, env) == header;
    } else {
      var init, last := keys[..|keys| - 1], keys[|keys| - 1];
      LoadEntries(header, init, env);
      AppendAssociates(header, EntryLines(init, env), EntryLine(last, env[last]));
      LoadAppend(header + EntryLines(init, env), EntryLine(last, env[last]));
      AddEntry(Stored(init, env), last, env[last]);
    }
  }

  lemma BlankIsSkipped(lines: seq<string>)
    ensures LoadLines(lines + [""]) == LoadLines(lines)
  {
    LoadAppend(lines, "");
    assert ReadLine("") == None;
  }

  lemma CommentIsSkipped(line: string)
    requires line != "" && line[0] == '#'
    ensures ReadLine(line) == None
  {
    assert TrimLeft(line, IsSpace) == line;
    TrimRightStops(line[..1], line[1..], IsSpace);
    assert line[..1] + line[1..] == line;
  }

  ghost predicate AllFree(lines: seq<string>) {
    forall i :: 0 <= i < |lines| ==> Free(lines[i], IsBreak)
  }

  lemma FreeAppend(a: string, b: string)
    requires Free(a, IsBreak) && Free(b, IsBreak)
    ensures Free(a + b, IsBreak)
  {
  }

  lemma BannerIsFree()
    ensures Free(BANNER, IsBreak) && BANNER != "" && BANNER[0] == '#'
  {
    FreeAppend("# Auto-generated ", "by run-recipe.py ");
    FreeAppend("# Auto-generated " + "by run-recipe.py ", "--discover");
  }

  lemma CommentThenBlank(comment: string)
    requires Free(comment, IsBreak) && comment != "" && comment[0] == '#'
    ensures LoadLines([comment, ""]) == map[] && AllFree([comment, ""])
  {
    CommentIsSkipped(comment);
    LoadAppend([], comment);
    BlankIsSkipped([comment]);
    assert [] + [comment] == [comment] && [comment] + [""] == [comment, ""];
  }

  lemma HeaderIsSkipped()
    ensures LoadLines(HEADER) == map[] && AllFree(HEADER)
  {
    BannerIsFree();
    CommentThenBlank(BANNER);
  }

  lemma {:induction false} EntriesAreFree(keys: seq<string>, env: map<string, string>)
    requires forall i :: 0 <= i < |keys| ==> keys[i] in env && Free(keys[i], IsBreak) && Free(env[keys[i]], IsBreak)
    ensures AllFree(EntryLines(keys, env))
  {
    if keys != [] {
      EntriesAreFree(keys[..|keys| - 1], env);
    }
  }

  /** With good keys and no line break in a value, every key loads as its stripped value. */
  lemma LoadSaved(header: seq<string>, keys: seq<string>, env: map<string, string>)
    requires LoadLines(header) == map[] && AllFree(header) && Enumerates(keys, env)
    requires forall k :: k in env ==> GoodKey(k) && Free(env[k], IsBreak)
    ensures Load(TextOf(header, keys, env)) == Stored(keys, env)
  {
    EntriesAreFree(keys, env);
    SplitUndoesJoin(header + EntryLines(keys, env) + [""], '\n', IsBreak);
    LoadEntries(header, keys, env);
    BlankIsSkipped(header + EntryLines(keys, env));
  }

  /** Saving and loading gives back the same map exactly when every entry is good. */
  lemma RoundTripIff(keys: seq<string>, env: map<string, string>)
    requires Enumerates(keys, env)
    ensures Load(TextOf(HEADER, keys, env)) == env <==> forall k :: k in env ==> GoodKey(k) && GoodValue(env[k])
  {
    HeaderIsSkipped();
    RoundTripWith(HEADER, keys, env);
  }

  lemma RoundTripWith(header: seq<string>, keys: seq<string>, env: map<string, string>)
    requires LoadLines(header) == map[] && AllFree(header) && Enumerates(keys, env)
    ensures Load(TextOf(header, keys, env)) == env <==> forall k :: k in env ==> GoodKey(k) && GoodValue(env[k])
  {
    LoadedIsReadable(TextOf(header, keys, env));
    if forall k :: k in env ==> GoodKey(k) && Free(env[k], IsBreak) {
      LoadSaved(header, keys, env);
      StoredIsEnvIff(keys, env);
    }
  }

  lemma LoadedIsReadable(text: string)
    ensures forall k :: k in Load(text) ==> GoodKey(k) && Free(Load(text)[k], IsBreak)
  {
    forall k | k in Load(text) ensures GoodKey(k) && Free(Load(text)[k], IsBreak) {
      LoadedAreGood(Split(text, IsBreak), k);
    }
  }

  lemma StoredAt(keys: seq<string>, env: map<string, string>, k: string)
    requires Enumerates(keys, env) && k in env && Free(env[k], IsBreak)
    ensures k in Stored(keys, env) && (Stored(keys, env)[k] == env[k] <==> GoodValue(env[k]))
  {
    UnquoteUndoesQuoteIff(env[k]);
  }

  lemma SameMapIff(a: map<string, string>, b: map<string, string>)
    requires a.Keys == b.Keys
    ensures a == b <==> forall k :: k in b ==> a[k] == b[k]
  {
  }

  lemma StoredIsEnvIff(keys: seq<string>, env: map<string, string>)
    requires Enumerates(keys, env) && forall k :: k in env ==> Free(env[k], IsBreak)
    ensures Stored(keys, env) == env <==> forall k :: k in env ==> GoodValue(env[k])
  {
    var stored := Stored(keys, env);
    assert stored.Keys == env.Keys;
    SameMapIff(stored, env);
    if stored == env {
      forall k | k in env ensures GoodValue(env[k]) { StoredAt(keys, env, k); }
    } else if forall k :: k in env ==> GoodValue(env[k]) {
      forall k | k in env ensures stored[k] == env[k] { StoredAt(keys, env, k); }
    }
  }

  // ---------------------------------------------------------------- the code

  /** The order of strings by their characters. */
  predicate Le(a: string, b: string) {
    a == "" || (b != "" && (a[0] < b[0] || (a[0] == b[0] && Le(a[1..], b[1..]))))
  }

  lemma {:induction false} LeIsTotal(a: string, b: string)
    ensures Le(a, b) || Le(b, a)
  {
    if a != "" && b != "" {
      LeIsTotal(a[1..], b[1..]);
    }
  }

  lemma {:induction false} LeIsTransitive(a: string, b: string, c: string)
    requires Le(a, b) && Le(b, c)
    ensures Le(a, c)
  {
    if a != "" && a[0] == b[0] == c[0] {
      LeIsTransitive(a[1..], b[1..], c[1..]);
    }
  }

  /** A string comes before another that it starts, or whose character is greater where they first differ. */
  lemma {:induction false} LeIff(a: string, b: string)
    ensures Le(a, b) <==>
      a <= b || exists i :: 0 <= i < |a| && i < |b| && a[..i] == b[..i] && a[i] < b[i]
  {
    if a != "" && b != "" && a[0] == b[0] {
      var c, d := a[1..], b[1..];
      LeIff(c, d);
      assert a == [a[0]] + c && b == [b[0]] + d;
      if i :| 0 <= i < |c| && i < |d| && c[..i] == d[..i] && c[i] < d[i] {
        assert a[..i + 1] == [a[0]] + c[..i] && b[..i + 1] == [b[0]] + d[..i];
        assert a[i + 1] < b[i + 1];
      }
      if i :| 0 <= i < |a| && i < |b| && a[..i] == b[..i] && a[i] < b[i] {
        assert c[..i - 1] == a[..i][1..] && d[..i - 1] == b[..i][1..];
        assert c[i - 1] < d[i - 1];
      }
    } else if a != "" && b != "" {
      assert a[0] < b[0] ==> a[..0] == b[..0];
      forall i | 0 < i < |a| && i < |b| ensures a[..i] != b[..i] {
        assert a[..i][0] == a[0] && b[..i][0] == b[0];
      }
    }
  }

  method Least(keys: set<string>) returns (least: string)
    requires keys != {}
    ensures least in keys && forall k :: k in keys ==> Le(least, k)
  {
    least :| least in keys;
    LeIsTotal(least, least);
    var rest := keys - {least};
    while rest != {}
      invariant least in keys && rest <= keys
      invariant forall k :: k in keys - rest ==> Le(least, k)
    {
      var k :| k in rest;
      LeIsTotal(least, k);
      if !Le(least, k) {
        forall other | other in keys - rest ensures Le(k, other) {
          LeIsTransitive(k, least, other);
        }
        LeIsTotal(k, k);
        least := k;
      }
      rest := rest - {k};
    }
  }

  ghost predicate Ascending(keys: seq<string>) {
    forall i, j :: 0 <= i < j < |keys| ==> InOrder(keys[i], keys[j])
  }

  ghost predicate InOrder(a: string, b: string) { Le(a, b) && a != b }

  method SortedKeys(keys: set<string>) returns (ordered: seq<string>)
    ensures Ascending(ordered) && forall k :: k in ordered <==> k in keys
  {
    ordered := [];
    var rest := keys;
    while rest != {}
      invariant rest <= keys && Ascending(ordered)
      invariant forall k :: k in ordered <==> k in keys - rest
      invariant forall i, k :: 0 <= i < |ordered| && k in rest ==> InOrder(ordered[i], k)
    {
      var least := Least(rest);
      ordered := ordered + [least];
      rest := rest - {least};
    }
  }

  method FormatEntry(key: string, value: string) returns (line: string)
    ensures line == EntryLine(key, value)
    ensures line == if ' ' in value || ',' in value then key + "=\"" + value + "\"" else key + "=" + value
  {
    QuotedLine(key, value);
    if ' ' in value || ',' in value {
      line := key + "=\"" + value + "\"";
    } else {
      line := key + "=" + value;
    }
  }

  /** The lines of the entries, in the order of the keys, after some others. */
  method AddEntries(header: seq<string>, order: seq<string>, env: map<string, string>) returns (lines: seq<string>)
    requires forall k :: 0 <= k < |order| ==> order[k] in env
    ensures lines == header + EntryLines(order, env)
  {
    lines := header;
    for i := 0 to |order|
      invariant lines == header + EntryLines(order[..i], env)
    {
      var line := FormatEntry(order[i], env[order[i]]);
      assert order[..i + 1][..i] == order[..i];
      AppendAssociates(header, EntryLines(order[..i], env), line);
      lines := lines + [line];
    }
    assert order[..|order|] == order;
  }

  /** The file holds the header and the entries in ascending order of their keys. It loads as the
      same map exactly when every entry is good. */
  method SaveEnvFile(env: map<string, string>) returns (text: string, ghost keys: seq<string>)
    ensures Enumerates(keys, env) && Ascending(keys)
    ensures text == TextOf(HEADER, keys, env)
    ensures Load(text) == env <==> forall k :: k in env ==> GoodKey(k) && GoodValue(env[k])
  {
    var order := SortedKeys(env.Keys);
    var lines := AddEntries(HEADER, order, env);
    keys := order;
    text := Join(lines + [""], '\n');
    RoundTripIff(keys, env);
  }

  lemma QuotedLine(key: string, value: string)
    ensures EntryLine(key, value) ==
            if ' ' in value || ',' in value then key + "=\"" + value + "\"" else key + "=" + value
  {
    assert key + ['='] + ("\"" + value + "\"") == key + "=\"" + value + "\"";
  }

  method ReadInto(env: map<string, string>, raw: string) returns (env': map<string, string>)
    ensures env' == AddLine(env, raw)
  {
    env' := env;
    var line := Trim(raw, IsSpace);
    if line != "" && line[0] != '#' && '=' in line {
      var key := UpTo(line, '=');
      var value := Unquote(line[|key| + 1..]);
      env' := env[Trim(key, IsSpace) := value];
    }
  }

  lemma LoadStep(lines: seq<string>, i: nat)
    requires i < |lines|
    ensures LoadLines(lines[..i + 1]) == AddLine(LoadLines(lines[..i]), lines[i])
  {
    LoadAppend(lines[..i], lines[i]);
    assert lines[..i] + [lines[i]] == lines[..i + 1];
  }

  /** No file is an empty map. */
  method LoadEnvFile(file: Option<string>) returns (env: map<string, string>)
    ensures env == if file == None then map[] else Load(file.value)
  {
    env := map[];
    if file.Some? {
      var lines := Split(file.value, IsBreak);
      for i := 0 to |lines|
        invariant env == LoadLines(lines[..i])
      {
        LoadStep(lines, i);
        env := ReadInto(env, lines[i]);
      }
      assert lines[..|lines|] == lines;
    }
  }
}

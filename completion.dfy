/** Attribute-name and attribute-value completion inside todo lines and
    front-matter headers, and the detection of the header
    (src/domain/Completion.ts). */
module Completion {
  import opened Results
  import opened Text
  import opened Seqs
  import opened Model

  /** What completion reads from the parsed folder: the known attribute names
      and, per name, the known values: strings, or booleans (a `false`
      attribute, or a flag taken as a project). */
  datatype Index = Index(attributes: seq<string>, attributeValues: map<string, seq<AttrValue>>)

  /** Every value is a string, so that `startsWith` can be called on it. */
  predicate AllStrings(vs: seq<AttrValue>) {
    forall i :: 0 <= i < |vs| ==> vs[i].Str?
  }

  /** The strings of a list of string values, in order. */
  function Strings(vs: seq<AttrValue>): (r: seq<string>)
    requires AllStrings(vs)
    ensures |r| == |vs| && forall i :: 0 <= i < |vs| ==> vs[i] == Str(r[i])
    ensures forall x :: x in r <==> Str(x) in vs
  {
    if vs == [] then [] else [vs[0].s] + Strings(vs[1..])
  }

  /** The known names that start with `beginning`, in index order. */
  function CompleteAttribute(ix: Index, beginning: string): (r: seq<string>)
    ensures forall x :: x in r <==> x in ix.attributes && StartsWith(x, beginning)
  {
    Filter(ix.attributes, (a: string) => StartsWith(a, beginning))
  }

  /** The known values of `name` that start with `beginning`, in index order;
      nothing when the name has no recorded values. A boolean in the list
      makes `value.startsWith` throw, whichever element it is, since
      `filter` visits them all. */
  function CompleteAttributeValue(ix: Index, name: string, beginning: string): (r: Result<seq<string>>)
    ensures name !in ix.attributeValues ==> r == Ok([])
    ensures name in ix.attributeValues ==> (r.Ok? <==> AllStrings(ix.attributeValues[name]))
    ensures r.Ok? ==> forall x :: x in r.value <==>
      name in ix.attributeValues && Str(x) in ix.attributeValues[name] && StartsWith(x, beginning)
  {
    if name !in ix.attributeValues then Ok([])
    else
      var values := ix.attributeValues[name];
      if !AllStrings(values) then Failure("value.startsWith is not a function")
      else Ok(Filter(Strings(values), (v: string) => StartsWith(v, beginning)))
  }

  /** An empty prefix proposes every known name, and every known value. */
  lemma EmptyPrefixProposesAll(ix: Index, name: string)
    ensures CompleteAttribute(ix, "") == ix.attributes
    ensures name in ix.attributeValues && AllStrings(ix.attributeValues[name]) ==>
      CompleteAttributeValue(ix, name, "") == Ok(Strings(ix.attributeValues[name]))
  {
    FilterAll(ix.attributes, (a: string) => StartsWith(a, ""));
    if name in ix.attributeValues && AllStrings(ix.attributeValues[name]) {
      FilterAll(Strings(ix.attributeValues[name]), (v: string) => StartsWith(v, ""));
    }
  }

  /** Proposals keep the order and multiplicity of the index. */
  lemma CompletionsAreSubsequences(ix: Index, name: string, beginning: string)
    ensures Subseq(CompleteAttribute(ix, beginning), ix.attributes)
    ensures CompleteAttributeValue(ix, name, beginning).Ok? && name in ix.attributeValues ==>
      Subseq(CompleteAttributeValue(ix, name, beginning).value, Strings(ix.attributeValues[name]))
  {
    FilterSubseq(ix.attributes, (a: string) => StartsWith(a, beginning));
    if name in ix.attributeValues && AllStrings(ix.attributeValues[name]) {
      FilterSubseq(Strings(ix.attributeValues[name]), (v: string) => StartsWith(v, beginning));
    }
  }

  /** The backward scan from the caret: it stops at position 0 or below, or
      on an `@` or a line break. */
  function ScanStart(content: string, b: int): int
    decreases b
  {
    if b > 0 && CharAt(content, b) != Some('@') && CharAt(content, b) != Some('\n')
    then ScanStart(content, b - 1)
    else b
  }

  /** The word being completed: from the `@` found by the scan up to the
      caret, provided that `@` follows a space; empty otherwise. */
  function WordBeginning(content: string, position: int): string {
    var b := ScanStart(content, position);
    if b <= 1 || CharAt(content, b) != Some('@') || CharAt(content, b - 1) != Some(' ') then ""
    else Substr(content, b, position - b)
  }

  method FindCurrentWordBeginning(content: string, position: int) returns (word: string)
    ensures word == WordBeginning(content, position)
    ensures word != [] ==> word[0] == '@' && '\n' !in word
  {
    var beginning := position;
    while beginning > 0 && CharAt(content, beginning) != Some('@') && CharAt(content, beginning) != Some('\n')
      invariant beginning <= position
      invariant ScanStart(content, beginning) == ScanStart(content, position)
    {
      beginning := beginning - 1;
    }
    if beginning <= 1 || CharAt(content, beginning) != Some('@') || CharAt(content, beginning - 1) != Some(' ') {
      return "";
    }
    ScanStartSpec(content, position);
    assert ScanStart(content, beginning) == beginning;
    word := Substr(content, beginning, position - beginning);
    assert word == content[beginning..beginning + |word|];
    forall i | 0 < i < |word| ensures word[i] != '\n' {
      assert word[i] == content[beginning + i];
      assert CharAt(content, beginning + i) == Some(content[beginning + i]);
    }
  }

  lemma {:induction false} ScanStartSpec(content: string, p: int)
    ensures ScanStart(content, p) <= p
    ensures ScanStart(content, p) > 0 ==>
      CharAt(content, ScanStart(content, p)) in {Some('@'), Some('\n')}
    ensures forall k :: ScanStart(content, p) < k <= p ==>
      CharAt(content, k) != Some('@') && CharAt(content, k) != Some('\n')
    decreases p
  {
    if p > 0 && CharAt(content, p) != Some('@') && CharAt(content, p) != Some('\n') {
      ScanStartSpec(content, p - 1);
    }
  }

  /** An attribute token `@...` starts at `b` for a caret at `position`:
      the `@` follows a space, lies at or before the caret, and no `@` or
      line break comes between it and the caret. */
  ghost predicate TokenAt(content: string, position: int, b: int) {
    2 <= b < |content| && b <= position && content[b] == '@' && content[b - 1] == ' ' &&
    forall k :: b < k <= position && k < |content| ==> content[k] != '@' && content[k] != '\n'
  }

  lemma WordAtToken(content: string, position: int, b: int)
    requires TokenAt(content, position, b)
    ensures WordBeginning(content, position) == Substr(content, b, position - b)
  {
    ScanStartSpec(content, position);
    var s := ScanStart(content, position);
    assert CharAt(content, b) == Some('@');
    if s > b {
      assert false;
    } else if s < b {
      assert false;
    }
  }

  /** A non-empty word always comes from an attribute token. */
  lemma WordHasToken(content: string, position: int)
    ensures WordBeginning(content, position) != "" ==> TokenAt(content, position, ScanStart(content, position))
  {
    ScanStartSpec(content, position);
    var s := ScanStart(content, position);
    if WordBeginning(content, position) != "" {
      forall k | s < k <= position && k < |content|
        ensures content[k] != '@' && content[k] != '\n'
      {
        assert CharAt(content, k) == Some(content[k]);
      }
    }
  }

  lemma WordWithoutToken(content: string, position: int)
    requires forall b :: !TokenAt(content, position, b)
    ensures WordBeginning(content, position) == ""
  {
    WordHasToken(content, position);
  }

  /** Completion inside a todo line: values of the attribute when the word
      already holds a `(`, names otherwise. */
  function CompleteTodo(ix: Index, content: string, position: int): Result<seq<string>> {
    var word := WordBeginning(content, position);
    if word == "" then Ok([])
    else
      var k := IndexOf(word, "(", 0);
      if k >= 0 then
        CompleteAttributeValue(ix, Substr(word, 1, k - 1), Substr(word, k + 1, |word| - k - 1))
      else
        Ok(CompleteAttribute(ix, Substr(word, 1, |word| - 1)))
  }

  /** Without an attribute token before the caret there is nothing to propose. */
  lemma CompleteTodoOutsideToken(ix: Index, content: string, position: int)
    requires forall b :: !TokenAt(content, position, b)
    ensures CompleteTodo(ix, content, position) == Ok([])
  {
    WordWithoutToken(content, position);
  }

  /** After `@` and a name prefix, the proposals are the names with that
      prefix. */
  lemma CompleteTodoName(ix: Index, content: string, position: int, b: int)
    requires TokenAt(content, position, b) && b < position <= |content|
    requires '(' !in content[b..position]
    ensures CompleteTodo(ix, content, position) == Ok(CompleteAttribute(ix, content[b + 1..position]))
  {
    WordAtToken(content, position, b);
    var word := content[b..position];
    assert WordBeginning(content, position) == word;
    IndexOfSpec(word, "(", 0);
    assert word[..|word|] == word;
    NoOccurrenceBefore(word, '(', |word|);
    assert IndexOf(word, "(", 0) == -1;
    assert Substr(word, 1, |word| - 1) == word[1..] == content[b + 1..position];
  }

  /** After `@name(` and a value prefix, the proposals are the recorded values
      of `name` with that prefix; `q` is the first `(` of the token. */
  lemma CompleteTodoValue(ix: Index, content: string, position: int, b: int, q: int)
    requires TokenAt(content, position, b) && position <= |content|
    requires b < q < position && content[q] == '('
    requires '(' !in content[b..q]
    ensures CompleteTodo(ix, content, position) ==
      CompleteAttributeValue(ix, content[b + 1..q], content[q + 1..position])
  {
    WordAtToken(content, position, b);
    var word := content[b..position];
    assert WordBeginning(content, position) == word;
    assert word[..q - b] == content[b..q];
    NoOccurrenceBefore(word, '(', q - b);
    IndexOfFirst(word, "(", 0, q - b);
    var k := IndexOf(word, "(", 0);
    assert Substr(word, 1, k - 1) == word[1..k];
    assert content[b..position][1..q - b] == content[b + 1..q];
    assert Substr(word, k + 1, |word| - k - 1) == word[k + 1..] == content[q + 1..position];
  }

  /** Text after the caret does not change the proposals, unless the caret
      sits just before an `@` or a line break (where the scan starts). */
  lemma CompleteTodoIgnoresSuffix(ix: Index, content: string, position: int, rest: string)
    requires 0 <= position <= |content|
    requires rest == [] || (rest[0] != '@' && rest[0] != '\n')
    ensures CompleteTodo(ix, content[..position] + rest, position) ==
            CompleteTodo(ix, content[..position], position)
  {
    WordIgnoresSuffix(content[..position], rest);
  }

  lemma WordIgnoresSuffix(line: string, rest: string)
    requires rest == [] || (rest[0] != '@' && rest[0] != '\n')
    ensures WordBeginning(line + rest, |line|) == WordBeginning(line, |line|)
  {
    var c1, p := line + rest, |line|;
    assert forall k :: k < p ==> CharAt(c1, k) == CharAt(line, k);
    ScanStartAgree(c1, line, p, p);
    var b := ScanStart(c1, p);
    ScanStartSpec(c1, p);
    if 1 < b < p {
      assert Substr(c1, b, p - b) == c1[b..p];
      assert c1[b..p] == line[b..p];
    }
  }

  lemma {:induction false} ScanStartAgree(c1: string, c2: string, p: int, position: int)
    requires p <= position
    requires forall k :: k < position ==> CharAt(c1, k) == CharAt(c2, k)
    requires CharAt(c1, position) !in {Some('@'), Some('\n')}
    requires CharAt(c2, position) !in {Some('@'), Some('\n')}
    ensures ScanStart(c1, p) == ScanStart(c2, p)
    decreases p
  {
    if p > 0 {
      ScanStartAgree(c1, c2, p - 1, position);
    }
  }

  /** Completion inside a header line: after the first `:` (when it is before
      the caret), the values of the trimmed key; before it, the names
      starting with the trimmed text up to the caret. */
  function CompleteHeader(ix: Index, line: string, position: int): Result<seq<string>> {
    var k := IndexOf(line, ":", 0);
    if k >= 0 && k < position then
      CompleteAttributeValue(ix, Trim(Substr(line, 0, k)), TrimLeft(Substr(line, k + 1, position - k - 1)))
    else
      Ok(CompleteAttribute(ix, Trim(Substr(line, 0, position))))
  }

  lemma CompleteHeaderValue(ix: Index, line: string, position: nat, k: nat)
    requires k < position <= |line| && line[k] == ':' && ':' !in line[..k]
    ensures CompleteHeader(ix, line, position) ==
      CompleteAttributeValue(ix, Trim(line[..k]), TrimLeft(line[k + 1..position]))
  {
    FirstColon(line, k);
    var key, text := Substr(line, 0, k), Substr(line, k + 1, position - k - 1);
    assert key == line[..k];
    assert text == line[k + 1..position];
  }

  lemma FirstColon(line: string, k: nat)
    requires k < |line| && line[k] == ':' && ':' !in line[..k]
    ensures IndexOf(line, ":", 0) == k
  {
    NoOccurrenceBefore(line, ':', k);
    assert line[k..k + 1] == ":";
    IndexOfFirst(line, ":", 0, k);
  }

  lemma CompleteHeaderName(ix: Index, line: string, position: nat)
    requires position <= |line| && ':' !in line[..position]
    ensures CompleteHeader(ix, line, position) == Ok(CompleteAttribute(ix, Trim(line[..position])))
  {
    IndexOfSpec(line, ":", 0);
    NoOccurrenceBefore(line, ':', position);
    assert !(0 <= IndexOf(line, ":", 0) < position);
    assert Substr(line, 0, position) == line[..position];
  }

  /** The end-of-line convention of a document: CRLF as soon as it holds a
      carriage return. */
  function Eol(content: string): (eol: string)
    ensures eol != []
  {
    if IndexOf(content, "\r", 0) >= 0 then "\r\n" else "\n"
  }

  /** The header scan: from `index`, move past the next line break until the
      line after it starts with `---`; returns the last header line number. */
  function HeaderLastLine(content: string, eol: string, index: nat, lineCount: int): int
    requires eol != []
    decreases |content| + 1 - index
  {
    var next := IndexOf(content, eol, index);
    if HeaderGoesOn(content, eol, index, next) then
      HeaderLastLine(content, eol, next + |eol|, lineCount + 1)
    else lineCount
  }

  /** The scan goes on past the line break at `next` unless the text right
      after the line break at `index` starts with `---`. */
  predicate HeaderGoesOn(content: string, eol: string, index: nat, next: int) {
    next > 0 && Substr(content, index + |eol|, 3) != "---"
  }

  /** Whether line `lineNumber` of the document belongs to its header: the
      document must start with `---`. */
  predicate InHeader(content: string, lineNumber: int) {
    IndexOf(content, "---", 0) == 0 &&
    lineNumber <= HeaderLastLine(content, Eol(content), |Eol(content)|, -1)
  }

  method IsInHeader(content: string, lineNumber: int) returns (r: bool)
    ensures r == InHeader(content, lineNumber)
    ensures r ==> StartsWith(content, "---")
  {
    var eol := Eol(content);
    var headerStart := IndexOf(content, "---", 0);
    if headerStart != 0 {
      return false;
    }
    IndexOfSpec(content, "---", 0);
    var lineCount := -1;
    var index := headerStart + |eol|;
    assert index == |eol|;
    var newIndex := IndexOf(content, eol, index);
    ghost var last := HeaderLastLine(content, eol, index, lineCount);
    while newIndex > 0 && Substr(content, index + |eol|, 3) != "---"
      invariant newIndex == IndexOf(content, eol, index)
      invariant HeaderLastLine(content, eol, index, lineCount) == last
      decreases |content| + 1 - index
    {
      HeaderStep(content, eol, index, lineCount);
      index := newIndex + |eol|;
      lineCount := lineCount + 1;
      assert HeaderLastLine(content, eol, index, lineCount) == last;
      newIndex := IndexOf(content, eol, index);
    }
    r := lineNumber <= lineCount;
  }

  lemma HeaderStep(content: string, eol: string, index: nat, lineCount: int)
    requires eol != []
    requires HeaderGoesOn(content, eol, index, IndexOf(content, eol, index))
    ensures HeaderLastLine(content, eol, index, lineCount) ==
      HeaderLastLine(content, eol, IndexOf(content, eol, index) + |eol|, lineCount + 1)
  {
  }

  /** Header membership is closed downwards: every line above a header line
      is a header line. */
  lemma InHeaderDownward(content: string, m: int, n: int)
    requires m <= n && InHeader(content, n)
    ensures InHeader(content, m)
  {
  }
}

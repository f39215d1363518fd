/** What the argument parser makes of printed entries, and which texts it rejects. */
module ArgumentLaws {
  import opened Wrappers
  import opened ArgumentParser

  /** A name and the tokens of its list; the name is empty for a list that goes to all images. */
  datatype Entry = Entry(name: string, tokens: seq<string>)

  function Join(tokens: seq<string>): string {
    if tokens == [] then ""
    else if |tokens| == 1 then tokens[0]
    else tokens[0] + "," + Join(tokens[1..])
  }

  function Print(e: Entry): string {
    e.name + "[" + Join(e.tokens) + "]"
  }

  /** The entries, each with a comma behind it. */
  function PrintEach(entries: seq<Entry>): string {
    if entries == [] then ""
    else
      var n := |entries| - 1;
      PrintEach(entries[..n]) + (Print(entries[n]) + ",")
  }

  /** The entries with commas between them. */
  function PrintAll(entries: seq<Entry>): string {
    if entries == [] then ""
    else
      var n := |entries| - 1;
      PrintEach(entries[..n]) + Print(entries[n])
  }

  /** Tokens that can be told apart: no commas, and the last one is not empty. */
  predicate Separable(tokens: seq<string>) {
    && (forall k :: 0 <= k < |tokens| ==> ',' !in tokens[k])
    && (tokens != [] ==> tokens[|tokens| - 1] != "")
  }

  /** An entry whose brackets can be found. */
  predicate WellFormed(e: Entry) {
    && '[' !in e.name && ']' !in e.name && Separable(e.tokens)
    && (forall k :: 0 <= k < |e.tokens| ==> ']' !in e.tokens[k])
  }

  ghost predicate Readable<V>(tokens: seq<string>, read: Reader<V>) {
    forall k :: 0 <= k < |tokens| ==> read(tokens[k]).Some?
  }

  /** `values` are what the tokens say, in order. */
  ghost predicate AreRead<V>(tokens: seq<string>, values: seq<V>, read: Reader<V>) {
    |values| == |tokens| && forall k :: 0 <= k < |tokens| ==> read(tokens[k]) == Some(values[k])
  }

  ghost predicate AllNamed<V>(entries: seq<Entry>, read: Reader<V>) {
    forall k :: 0 <= k < |entries| ==> entries[k].name != "" && WellFormed(entries[k]) && Readable(entries[k].tokens, read)
  }

  // ----------------------------------------------------------------- Tokens

  /** A list of tokens is read token by token; one unreadable token spoils it. */
  lemma {:induction false} ReadAllIs<V>(tokens: seq<string>, read: Reader<V>)
    ensures match ReadAll(tokens, read)
      case Some(values) => AreRead(tokens, values, read)
      case None => !Readable(tokens, read)
  {
    if tokens != [] && read(tokens[0]).Some? {
      ReadAllIs(tokens[1..], read);
      match ReadAll(tokens[1..], read)
      case None =>
        var k :| 0 <= k < |tokens[1..]| && read(tokens[1..][k]).None?;
        assert read(tokens[k + 1]).None?;
      case Some(rest) =>
        forall k | 0 <= k < |tokens| ensures read(tokens[k]) == Some(([read(tokens[0]).value] + rest)[k]) {
          if k > 0 { assert tokens[k] == tokens[1..][k - 1]; }
        }
    }
  }

  lemma {:induction false} FindIs(s: string, c: char, k: nat)
    requires k <= |s| && c !in s[..k] && (k < |s| ==> s[k] == c)
    ensures Find(s, c) == k
  {
    if k > 0 {
      assert s[0] == s[..k][0];
      assert s[1..][..k - 1] == s[..k][1..];
      FindIs(s[1..], c, k - 1);
    }
  }

  lemma {:induction false} FindAt(left: string, c: char, right: string)
    requires c !in left
    ensures Find(left + [c] + right, c) == |left|
  {
    assert (left + [c] + right)[..|left|] == left;
    FindIs(left + [c] + right, c, |left|);
  }

  lemma FindNone(s: string, c: char)
    requires c !in s
    ensures Find(s, c) == |s|
  {
  }

  lemma {:induction false} TokensPrepend(first: string, rest: string)
    requires ',' !in first
    ensures Tokens(first + "," + rest, ',') == [first] + Tokens(rest, ',')
  {
    var s := first + "," + rest;
    assert "," == [','];
    FindAt(first, ',', rest);
    assert s[..|first|] == first && s[|first| + 1..] == rest;
  }

  lemma {:induction false} SingleToken(token: string)
    requires token != "" && ',' !in token
    ensures Tokens(token, ',') == [token]
  {
    FindNone(token, ',');
    assert token[..|token|] == token;
    assert Tokens("", ',') == [] && [token] + [] == [token];
  }

  lemma {:induction false} TokensOfJoin(tokens: seq<string>)
    requires Separable(tokens)
    ensures Tokens(Join(tokens), ',') == tokens
  {
    if |tokens| == 1 {
      SingleToken(tokens[0]);
    } else if |tokens| > 1 {
      TokensOfJoin(tokens[1..]);
      TokensPrepend(tokens[0], Join(tokens[1..]));
    }
  }

  lemma Regroup(a: string, b: string, c: string, d: string)
    ensures (a + (b + c)) + d == a + (b + (c + d))
    ensures a + b + (c + d) == (a + b + c) + d
  {
  }

  lemma {:induction false} ClosedToken(token: string)
    requires ',' !in token
    ensures Tokens(token + ",", ',') == [token]
  {
    TokensPrepend(token, "");
    assert token + "," + "" == token + ",";
    assert Tokens("", ',') == [] && [token] + [] == [token];
  }

  predicate NoCommas(tokens: seq<string>) {
    forall k :: 0 <= k < |tokens| ==> ',' !in tokens[k]
  }

  lemma {:induction false} JoinGrows(tokens: seq<string>)
    requires |tokens| > 1
    ensures Join(tokens) + "," == tokens[0] + "," + (Join(tokens[1..]) + ",")
  {
    Regroup(tokens[0], ",", Join(tokens[1..]), ",");
  }

  /** With a comma at the end the last token may be empty as well. */
  lemma {:induction false} TokensOfClosedList(tokens: seq<string>)
    requires tokens != [] && NoCommas(tokens)
    ensures Tokens(Join(tokens) + ",", ',') == tokens
  {
    var first, rest := tokens[0], tokens[1..];
    if |tokens| == 1 {
      ClosedToken(first);
    } else {
      TokensOfClosedList(rest);
      TokensPrepend(first, Join(rest) + ",");
      JoinGrows(tokens);
    }
  }

  lemma {:induction false} NoBracketInJoin(tokens: seq<string>)
    requires forall k :: 0 <= k < |tokens| ==> ']' !in tokens[k]
    ensures ']' !in Join(tokens)
  {
    if |tokens| > 1 { NoBracketInJoin(tokens[1..]); }
  }

  // ---------------------------------------------------------------- One entry

  /** Where the brackets of a printed entry are found, and what lies between and behind them. */
  lemma {:induction false} PrintedShape(e: Entry, rest: string)
    requires WellFormed(e)
    ensures var s, n, end := Print(e) + rest, |e.name|, |e.name| + 1 + |Join(e.tokens)|;
            && end < |s|
            && Find(s, '[') == n && Find(s, ']') == end
            && s[..n] == e.name && Between(s, n, end) == Join(e.tokens) && s[end + 1..] == rest
  {
    var text := Join(e.tokens);
    var s := Print(e) + rest;
    NoBracketInJoin(e.tokens);
    assert s == e.name + ['['] + (text + "]" + rest);
    FindAt(e.name, '[', text + "]" + rest);
    assert s == (e.name + "[" + text) + [']'] + rest;
    FindAt(e.name + "[" + text, ']', rest);
  }

  /** One round of the parser on a text of known shape. */
  lemma {:induction false} ShapedStep<V>(s: string, end: nat, name: string, body: string, rest: string, list: Option<seq<V>>,
                                         acc: map<string, seq<V>>, inputs: Inputs, read: Reader<V>)
    requires |name| < |s| && end < |s| && Find(s, '[') == |name| && Find(s, ']') == end
    requires s[..|name|] == name && Between(s, |name|, end) == body && s[end + 1..] == rest
    requires ReadAll(Tokens(body, ','), read) == list
    ensures ParseStep(s, acc, inputs, read) == AfterList(name, list, rest, acc, inputs)
  {
  }

  /** Parsing what starts with a printed entry consumes exactly that entry. */
  lemma {:induction false} EntryConsumed<V>(e: Entry, rest: string, acc: map<string, seq<V>>, inputs: Inputs, read: Reader<V>)
    requires WellFormed(e)
    ensures ParseStep(Print(e) + rest, acc, inputs, read)
            == AfterList(e.name, ReadAll(e.tokens, read), rest, acc, inputs)
  {
    TokensOfJoin(e.tokens);
    PrintedShape(e, rest);
    ShapedStep(Print(e) + rest, |e.name| + 1 + |Join(e.tokens)|, e.name, Join(e.tokens), rest,
               ReadAll(e.tokens, read), acc, inputs, read);
  }

  // ------------------------------------------------------------- Many entries

  /** The map the entries stand for. */
  function Meaning<V>(entries: seq<Entry>, inputs: Inputs, read: Reader<V>): map<string, seq<V>> {
    if entries == [] then map[]
    else
      var n := |entries| - 1;
      var before := Meaning(entries[..n], inputs, read);
      match ReadAll(entries[n].tokens, read)
      case None => before
      case Some(values) => Kept(before, inputs, entries[n].name, values)
  }

  /** Entry `k` is the last one of its name. */
  ghost predicate LastOf(entries: seq<Entry>, name: string, k: nat) {
    k < |entries| && entries[k].name == name && forall j :: k < j < |entries| ==> entries[j].name != name
  }

  /** Of each known name, the last entry has set the values; nothing else is in the map. */
  ghost predicate Stands<V>(m: map<string, seq<V>>, entries: seq<Entry>, inputs: Inputs, read: Reader<V>) {
    && (forall name, k: nat :: name in inputs && LastOf(entries, name, k) ==> name in m && AreRead(entries[k].tokens, m[name], read))
    && (forall name :: name in m ==> name in inputs && exists k :: LastOf(entries, name, k))
  }

  lemma {:induction false} LastExtends(entries: seq<Entry>, name: string, k: nat)
    requires entries != []
    ensures var n := |entries| - 1;
            LastOf(entries, name, k) <==> if entries[n].name == name then k == n else LastOf(entries[..n], name, k)
  {
    var n := |entries| - 1;
    if LastOf(entries, name, k) && entries[n].name != name {
      forall j | k < j < n ensures entries[..n][j].name != name { assert entries[..n][j] == entries[j]; }
    }
    if LastOf(entries[..n], name, k) && entries[n].name != name {
      forall j | k < j <= n ensures entries[j].name != name {
        if j < n { assert entries[..n][j] == entries[j]; }
      }
    }
  }

  lemma {:induction false} MeaningStands<V>(entries: seq<Entry>, inputs: Inputs, read: Reader<V>)
    requires AllNamed(entries, read)
    ensures Stands(Meaning(entries, inputs, read), entries, inputs, read)
  {
    if entries != [] {
      var n := |entries| - 1;
      MeaningStands(entries[..n], inputs, read);
      ReadAllIs(entries[n].tokens, read);
      var before, m := Meaning(entries[..n], inputs, read), Meaning(entries, inputs, read);
      forall name, k: nat | name in inputs && LastOf(entries, name, k)
        ensures name in m && AreRead(entries[k].tokens, m[name], read)
      {
        LastExtends(entries, name, k);
      }
      forall name | name in m ensures name in inputs && exists k :: LastOf(entries, name, k) {
        if entries[n].name == name {
          LastExtends(entries, name, n);
        } else {
          var k :| LastOf(entries[..n], name, k);
          LastExtends(entries, name, k);
        }
      }
    }
  }

  /** Whatever follows printed entries is parsed on top of what they stand for. */
  lemma {:induction false} EntriesConsumed<V>(entries: seq<Entry>, text: string, inputs: Inputs, read: Reader<V>)
    requires AllNamed(entries, read)
    ensures ParseFrom(PrintEach(entries) + text, map[], inputs, read)
            == ParseFrom(text, Meaning(entries, inputs, read), inputs, read)
  {
    if entries == [] {
      assert PrintEach(entries) + text == text;
    } else {
      var n := |entries| - 1;
      var e := entries[n];
      var rest := "," + text;
      EntriesConsumed(entries[..n], Print(e) + rest, inputs, read);
      Regroup(PrintEach(entries[..n]), Print(e), ",", text);
      ReadAllIs(e.tokens, read);
      EntryConsumed(e, rest, Meaning(entries[..n], inputs, read), inputs, read);
      assert rest[1..] == text;
    }
  }

  // ----------------------------------------------------------- What is accepted

  /** Printing entries and parsing them back yields, for each known name, the values of its last
      entry, and nothing else. Entries of unknown name change nothing. */
  lemma {:induction false} RoundTrip<V>(entries: seq<Entry>, inputs: Inputs, read: Reader<V>)
    requires AllNamed(entries, read)
    ensures var result := ParseFrom(PrintAll(entries), map[], inputs, read);
            result.Values? && Stands(result.byName, entries, inputs, read)
  {
    MeaningStands(entries, inputs, read);
    if entries != [] {
      var n := |entries| - 1;
      EntriesConsumed(entries[..n], Print(entries[n]), inputs, read);
      ReadAllIs(entries[n].tokens, read);
      EntryConsumed(entries[n], "", Meaning(entries[..n], inputs, read), inputs, read);
      assert Print(entries[n]) + "" == Print(entries[n]);
    }
  }

  /** A comma behind the last entry changes nothing. */
  lemma {:induction false} ClosingComma<V>(entries: seq<Entry>, inputs: Inputs, read: Reader<V>)
    requires AllNamed(entries, read)
    ensures var result := ParseFrom(PrintEach(entries), map[], inputs, read);
            result.Values? && Stands(result.byName, entries, inputs, read)
  {
    MeaningStands(entries, inputs, read);
    EntriesConsumed(entries, "", inputs, read);
    assert PrintEach(entries) + "" == PrintEach(entries);
  }

  /** Each image has the values of `tokens`, every other input those of its last entry, and nothing
      else is in the map. */
  ghost predicate StandsWithImages<V>(m: map<string, seq<V>>, entries: seq<Entry>, tokens: seq<string>,
                                      inputs: Inputs, read: Reader<V>)
  {
    && (forall name :: name in inputs && inputs[name] ==> name in m && AreRead(tokens, m[name], read))
    && (forall name, k: nat :: name in inputs && !inputs[name] && LastOf(entries, name, k) ==>
          name in m && AreRead(entries[k].tokens, m[name], read))
    && (forall name :: name in m ==> name in inputs && (inputs[name] || exists k :: LastOf(entries, name, k)))
  }

  /** A list without a name goes to all images and ends the parse, whatever text follows. */
  lemma {:induction false} UnnamedList<V>(entries: seq<Entry>, tokens: seq<string>, text: string, inputs: Inputs, read: Reader<V>)
    requires AllNamed(entries, read) && WellFormed(Entry("", tokens)) && Readable(tokens, read)
    ensures var result := ParseFrom(PrintEach(entries) + (Print(Entry("", tokens)) + text), map[], inputs, read);
            result.Values? && StandsWithImages(result.byName, entries, tokens, inputs, read)
  {
    var e := Entry("", tokens);
    MeaningStands(entries, inputs, read);
    EntriesConsumed(entries, Print(e) + text, inputs, read);
    ReadAllIs(tokens, read);
    EntryConsumed(e, text, Meaning(entries, inputs, read), inputs, read);
  }

  // ----------------------------------------------------------- What is rejected

  /** One unreadable token in a list makes the whole parse fail, named or not, known or not. */
  lemma {:induction false} UnreadableToken<V>(entries: seq<Entry>, e: Entry, text: string, inputs: Inputs, read: Reader<V>)
    requires AllNamed(entries, read) && WellFormed(e) && !Readable(e.tokens, read)
    ensures ParseFrom(PrintEach(entries) + (Print(e) + text), map[], inputs, read) == BadNumber
  {
    EntriesConsumed(entries, Print(e) + text, inputs, read);
    ReadAllIs(e.tokens, read);
    EntryConsumed(e, text, Meaning(entries, inputs, read), inputs, read);
  }

  /** Behind the entries, text without a whole pair of brackets is rejected. */
  lemma {:induction false} NoWholeEntry<V>(entries: seq<Entry>, text: string, inputs: Inputs, read: Reader<V>)
    requires AllNamed(entries, read) && text != "" && ('[' !in text || ']' !in text)
    ensures ParseFrom(PrintEach(entries) + text, map[], inputs, read) == BadString
  {
    EntriesConsumed(entries, text, inputs, read);
    if '[' !in text { FindNone(text, '['); } else { FindNone(text, ']'); }
  }

  /** So is an entry with anything but a comma behind it. */
  lemma {:induction false} TextBehindEntry<V>(entries: seq<Entry>, e: Entry, text: string, inputs: Inputs, read: Reader<V>)
    requires AllNamed(entries + [e], read) && text != "" && text[0] != ','
    ensures ParseFrom(PrintEach(entries) + (Print(e) + text), map[], inputs, read) == BadString
  {
    assert (entries + [e])[|entries|] == e;
    forall k | 0 <= k < |entries|
      ensures entries[k].name != "" && WellFormed(entries[k]) && Readable(entries[k].tokens, read)
    {
      assert (entries + [e])[k] == entries[k];
    }
    EntriesConsumed(entries, Print(e) + text, inputs, read);
    ReadAllIs(e.tokens, read);
    EntryConsumed(e, text, Meaning(entries, inputs, read), inputs, read);
  }

  lemma ClosingShape(left: string, mid: string, body: string)
    requires '[' !in left + mid && ']' !in left
    ensures var name := left + "]" + mid;
            var s := name + "[" + body;
            && Find(s, '[') == |name| && Find(s, ']') == |left|
            && s[..|name|] == name && Between(s, |name|, |left|) == body && s[|left| + 1..] == mid + "[" + body
  {
    var name := left + "]" + mid;
    var s := name + "[" + body;
    FindAt(name, '[', body);
    Regroup(left, "]", mid, "[" + body);
    FindAt(left, ']', mid + "[" + body);
    assert s == left + [']'] + (mid + "[" + body);
  }

  /** A closing bracket before the opening one: the list then runs to the end of the text, and
      parsing goes on behind that early closing bracket. */
  lemma {:induction false} ClosingFirst<V>(left: string, mid: string, tokens: seq<string>, inputs: Inputs, read: Reader<V>)
    returns (values: seq<V>)
    requires '[' !in left + mid && ']' !in left && Separable(tokens) && Readable(tokens, read)
    ensures var name, rest := left + "]" + mid, mid + "[" + Join(tokens);
            && AreRead(tokens, values, read)
            && ParseFrom(name + "[" + Join(tokens), map[], inputs, read)
               == if rest[0] != ',' then BadString else ParseFrom(rest[1..], Kept(map[], inputs, name, values), inputs, read)
  {
    var name, body := left + "]" + mid, Join(tokens);
    ClosingShape(left, mid, body);
    TokensOfJoin(tokens);
    ReadAllIs(tokens, read);
    values := ReadAll(tokens, read).value;
    ShapedStep(name + "[" + body, |left|, name, body, mid + "[" + body, Some(values), map[], inputs, read);
  }
}

/** Parsing `name[v,v,..],name[v,..]` into per-input value lists. */
module ArgumentParser {
  import opened Wrappers

  /** The outcome: the values by input name, or one of the two ways to fail. */
  datatype Parsed<V> = Values(byName: map<string, seq<V>>) | BadString | BadNumber

  /** How a single token is read; reading may fail. */
  type Reader<!V> = string -> Option<V>

  /** The first position of `c`, or the length of `s`. */
  function Find(s: string, c: char): (k: nat)
    ensures k <= |s| && c !in s[..k]
    ensures k < |s| ==> s[k] == c
  {
    if s == "" then 0
    else if s[0] == c then 0
    else
      var k := Find(s[1..], c) + 1;
      assert s[..k] == [s[0]] + s[1..][..k - 1];
      k
  }

  /** What is left behind the delimiter at `k`, if there is one. */
  function Behind(s: string, k: nat): (r: string)
    requires k <= |s|
    ensures s != "" ==> |r| < |s|
  {
    if k == |s| then "" else s[k + 1..]
  }

  /** The tokens between delimiters; a delimiter at the very end opens no further token. */
  function Tokens(s: string, delim: char): seq<string>
    decreases |s|
  {
    if s == "" then []
    else
      var k := Find(s, delim);
      [s[..k]] + Tokens(Behind(s, k), delim)
  }

  function ReadAll<V>(tokens: seq<string>, read: Reader<V>): Option<seq<V>> {
    if tokens == [] then Some([])
    else
      match read(tokens[0])
      case None => None
      case Some(v) =>
        match ReadAll(tokens[1..], read)
        case None => None
        case Some(rest) => Some([v] + rest)
  }

  lemma {:induction false} ReadPrefix<V>(done: seq<string>, values: seq<V>, tokens: seq<string>, read: Reader<V>)
    requires ReadAll(done, read) == Some(values)
    ensures ReadAll(done + tokens, read) == match ReadAll(tokens, read)
                                            case None => None
                                            case Some(rest) => Some(values + rest)
  {
    if done == [] {
      assert done + tokens == tokens;
      assert values == [];
      match ReadAll(tokens, read)
      case None =>
      case Some(rest) => assert values + rest == rest;
    } else {
      ReadPrefix(done[1..], values[1..], tokens, read);
      assert (done + tokens)[1..] == done[1..] + tokens;
      match ReadAll(tokens, read)
      case None =>
      case Some(rest) => assert values + rest == [values[0]] + (values[1..] + rest);
    }
  }

  lemma ReadOne<V>(item: string, read: Reader<V>)
    ensures ReadAll([item], read) == match read(item) case None => None case Some(v) => Some([v])
  {
    var one := [item];
    assert one[0] == item && one[1..] == [];
    match read(item)
    case None =>
    case Some(v) => assert [v] + [] == [v];
  }

  /** The tokens of `all` up to those of `rest` have been read. */
  ghost predicate ReadSoFar<V>(all: seq<string>, values: seq<V>, rest: string, delim: char, read: Reader<V>) {
    exists done :: done + Tokens(rest, delim) == all && ReadAll(done, read) == Some(values)
  }

  lemma {:induction false} ReadNext<V>(done: seq<string>, values: seq<V>, item: string, tail: seq<string>, read: Reader<V>)
    requires ReadAll(done, read) == Some(values)
    ensures match read(item)
      case None => ReadAll(done + ([item] + tail), read) == None
      case Some(v) => ReadAll(done + [item], read) == Some(values + [v])
  {
    ReadOne(item, read);
    ReadPrefix(done, values, [item], read);
    ReadPrefix(done, values, [item] + tail, read);
    assert ([item] + tail)[0] == item;
  }

  /** What one round of reading means for all tokens. */
  lemma {:induction false} SplitStep<V>(all: seq<string>, values: seq<V>, rest: string, delim: char, read: Reader<V>)
    requires rest != "" && ReadSoFar(all, values, rest, delim, read)
    ensures var k := Find(rest, delim);
      match read(rest[..k])
      case None => ReadAll(all, read) == None
      case Some(v) => ReadSoFar(all, values + [v], Behind(rest, k), delim, read)
  {
    var k := Find(rest, delim);
    var item, tail := rest[..k], Tokens(Behind(rest, k), delim);
    var done :| done + Tokens(rest, delim) == all && ReadAll(done, read) == Some(values);
    assert (done + [item]) + tail == done + ([item] + tail);
    ReadNext(done, values, item, tail, read);
  }

  lemma SplitEnds<V>(all: seq<string>, values: seq<V>, delim: char, read: Reader<V>)
    requires ReadSoFar(all, values, "", delim, read)
    ensures ReadAll(all, read) == Some(values)
  {
    var done :| done + Tokens("", delim) == all && ReadAll(done, read) == Some(values);
    assert done + [] == done;
  }

  lemma SplitBegins<V>(s: string, delim: char, read: Reader<V>)
    ensures ReadSoFar(Tokens(s, delim), [], s, delim, read)
  {
    var done: seq<string> := [];
    assert done + Tokens(s, delim) == Tokens(s, delim) && ReadAll(done, read) == Some([]);
  }

  /** Reads token by token, stopping at the first one that is no number. */
  method SplitFloat<V>(s: string, delim: char, read: Reader<V>) returns (result: Option<seq<V>>)
    ensures result == ReadAll(Tokens(s, delim), read)
  {
    var rest := s;
    var values: seq<V> := [];
    SplitBegins(s, delim, read);
    while rest != ""
      invariant ReadSoFar(Tokens(s, delim), values, rest, delim, read)
      decreases |rest|
    {
      var k := Find(rest, delim);
      var item := rest[..k];
      SplitStep(Tokens(s, delim), values, rest, delim, read);
      match read(item) {
        case None =>
          return None;
        case Some(v) =>
          values := values + [v];
      }
      rest := Behind(rest, k);
    }
    SplitEnds(Tokens(s, delim), values, delim, read);
    result := Some(values);
  }

  // ---------------------------------------------------------------- The parser

  /** The inputs of the graph; the flag says whether one is an image. */
  type Inputs = map<string, bool>

  /** The text between the brackets. With the closing bracket first, the length wraps around and
      everything behind the opening one is taken. */
  function Between(s: string, start: nat, end: nat): string
    requires start < |s| && end < |s|
  {
    if end <= start then s[start + 1..] else s[start + 1..end]
  }

  function SetImages<V>(acc: map<string, seq<V>>, inputs: Inputs, values: seq<V>): map<string, seq<V>> {
    acc + map name | name in inputs && inputs[name] :: values
  }

  /** One round of the parser: it is done, or goes on with the text that is left. */
  datatype Step<V> = Stop(result: Parsed<V>) | Continue(rest: string, values: map<string, seq<V>>)

  /** What is collected once a list has been read for a name. Unknown names are skipped. */
  function Kept<V>(acc: map<string, seq<V>>, inputs: Inputs, name: string, values: seq<V>): map<string, seq<V>> {
    if name in inputs then acc[name := values] else acc
  }

  /** The round once a list has been read: what becomes of its values and of the text behind it. */
  function AfterList<V>(name: string, list: Option<seq<V>>, rest: string, acc: map<string, seq<V>>, inputs: Inputs): (step: Step<V>)
    ensures step.Continue? ==> |step.rest| < |rest|
  {
    match list
    case None => Stop(BadNumber)
    case Some(values) =>
      if name == "" then Stop(Values(SetImages(acc, inputs, values)))
      else if rest == "" then Stop(Values(Kept(acc, inputs, name, values)))
      else if rest[0] != ',' then Stop(BadString)
      else Continue(rest[1..], Kept(acc, inputs, name, values))
  }

  function ParseStep<V>(s: string, acc: map<string, seq<V>>, inputs: Inputs, read: Reader<V>): (step: Step<V>)
    ensures step.Continue? ==> |step.rest| < |s|
  {
    var start, end := Find(s, '['), Find(s, ']');
    if start == |s| then Stop(if s == "" then Values(acc) else BadString)
    else if end == |s| then Stop(BadString)
    else AfterList(s[..start], ReadAll(Tokens(Between(s, start, end), ','), read), s[end + 1..], acc, inputs)
  }

  /** What the parser makes of the text `s` that is left, given the values collected so far. */
  function ParseFrom<V>(s: string, acc: map<string, seq<V>>, inputs: Inputs, read: Reader<V>): Parsed<V>
    decreases |s|
  {
    match ParseStep(s, acc, inputs, read)
    case Stop(result) => result
    case Continue(rest, acc') => ParseFrom(rest, acc', inputs, read)
  }

  /** The parser's loop. It ends on every string, because the text left gets shorter. */
  method ParseScaleOrMeanValues<V>(arg: string, inputs: Inputs, read: Reader<V>) returns (result: Parsed<V>)
    ensures result == ParseFrom(arg, map[], inputs, read)
  {
    var collected: map<string, seq<V>> := map[];
    var search := arg;
    var start := Find(search, '[');
    while start != |search|
      invariant start == Find(search, '[')
      invariant ParseFrom(arg, map[], inputs, read) == ParseFrom(search, collected, inputs, read)
      decreases |search|
    {
      var end := Find(search, ']');
      if end == |search| { return BadString; }
      var name := search[..start];
      var parsed := SplitFloat(Between(search, start, end), ',', read);
      if parsed.None? {
        return BadNumber;
      }
      if name != "" {
        if name in inputs {
          collected := collected[name := parsed.value];
        }
      } else {
        collected := SetImages(collected, inputs, parsed.value);
        return Values(collected);
      }
      var rest := search[end + 1..];
      if rest == "" {
        return Values(collected);
      }
      if rest[0] != ',' {
        return BadString;
      }
      search := rest[1..];
      start := Find(search, '[');
    }
    if search != "" {
      return BadString;
    }
    return Values(collected);
  }
}

/** Model of the search-input parsing and matching of main.py. Console input is
    the sequence of lines the user types, in order; a property is the map of
    its attribute names to the text that was entered for them. */
module Agency {
  import opened Text

  datatype Option<T> = None | Some(value: T)

  /** A property's attributes, attribute name to value. */
  type Attributes = map<string, string>

  /** `get_valid_input`: reads responses until one whose lower-case form is an
      allowed option, and returns that response as typed. `consumed` is how
      many responses were read; running out of input is `None` (the EOFError
      `input()` raises). */
  method GetValidInput(responses: seq<string>, validOptions: seq<string>)
    returns (r: Option<string>, consumed: nat)
    ensures consumed <= |responses|
    ensures r.Some? ==> && 0 < consumed
                        && r.value == responses[consumed - 1]
                        && Lower(r.value) in validOptions
    ensures r.Some? ==> forall j :: 0 <= j < consumed - 1 ==> Lower(responses[j]) !in validOptions
    ensures r.None? ==> && consumed == |responses|
                        && forall j :: 0 <= j < |responses| ==> Lower(responses[j]) !in validOptions
  {
    if |responses| == 0 {
      return None, 0;
    }
    var response := responses[0];
    consumed := 1;
    while Lower(response) !in validOptions
      invariant 1 <= consumed <= |responses|
      invariant response == responses[consumed - 1]
      invariant forall j :: 0 <= j < consumed - 1 ==> Lower(responses[j]) !in validOptions
      decreases |responses| - consumed
    {
      if consumed == |responses| {
        return None, consumed;
      }
      response := responses[consumed];
      consumed := consumed + 1;
    }
    r := Some(response);
  }

  /** What `multiple_input` makes of one line: ignored (`None`) unless it holds
      exactly one `=` and the stripped text before it is an option; otherwise
      the stripped key and the stripped text after the `=`. */
  function ParseLine(line: string, options: seq<string>): (r: Option<(string, string)>)
    ensures r.Some? ==> r.value.0 in options
  {
    if '=' !in line || CountChar(line, '=') > 1 then None
    else
      var index := IndexOf(line, '=');
      var key := Strip(line[..index]);
      if key !in options then None else Some((key, Strip(line[index + 1..])))
  }

  /** A line without `=`, or with more than one, is ignored. */
  lemma ParseLineRejectsByCount(line: string, options: seq<string>)
    requires CountChar(line, '=') != 1
    ensures ParseLine(line, options) == None
  {
    CountZeroIffAbsent(line, '=');
  }

  /** A line `before=after` with no other `=` is the pair of the stripped parts
      when the stripped key is an option, and is ignored otherwise. */
  lemma ParseLineSplit(before: string, after: string, options: seq<string>)
    requires '=' !in before && '=' !in after
    ensures ParseLine(before + "=" + after, options)
            == if Strip(before) in options then Some((Strip(before), Strip(after))) else None
  {
    SplitAtSeparator(before, after);
  }

  /** In `before=after` with no other `=`, the `=` occurs once, at index
      `|before|`, and the text on either side of it is `before` and `after`. */
  lemma SplitAtSeparator(before: string, after: string)
    requires '=' !in before && '=' !in after
    ensures '=' in before + "=" + after && CountChar(before + "=" + after, '=') == 1
    ensures IndexOf(before + "=" + after, '=') == |before|
    ensures (before + "=" + after)[..|before|] == before
    ensures (before + "=" + after)[|before| + 1..] == after
  {
    var line := before + "=" + after;
    assert line[|before|] == '=';
    CountZeroIffAbsent(before, '=');
    CountZeroIffAbsent(after, '=');
    CountConcat(before, "=", '=');
    CountConcat(before + "=", after, '=');
    IndexOfAfter(before, after);
    assert line[..|before|] == before;
  }

  /** The first `=` of `before=after` is the one after `before` when `before`
      holds none. */
  lemma {:induction false} IndexOfAfter(before: string, after: string)
    requires '=' !in before
    ensures IndexOf(before + "=" + after, '=') == |before|
  {
    if before != [] {
      IndexOfAfter(before[1..], after);
      assert (before + "=" + after)[1..] == before[1..] + "=" + after;
    }
  }

  /** A line as `multiple_input` sees it: ignored, or a (key, value) pair. */
  type Entry = Option<(string, string)>

  /** The dictionary built from entries in order: each pair sets its key to
      its value, so a later pair for a key overwrites an earlier one. */
  function Fold(entries: seq<Entry>): (m: map<string, string>)
    ensures |m| <= |entries|
  {
    if entries == [] then map[]
    else
      var m := Fold(entries[..|entries| - 1]);
      match entries[|entries| - 1]
      case None => m
      case Some((k, v)) => m[k := v]
  }

  /** The pair of entry `i` has key `k`. */
  predicate HasKey(entries: seq<Entry>, i: int, k: string)
    requires 0 <= i < |entries|
  {
    entries[i].Some? && entries[i].value.0 == k
  }

  /** The keys of the folded dictionary are exactly the keys of the pairs. */
  lemma {:induction false} FoldKeys(entries: seq<Entry>, k: string)
    ensures k in Fold(entries) <==> exists i :: 0 <= i < |entries| && HasKey(entries, i, k)
  {
    if entries != [] {
      var n := |entries| - 1;
      var init := entries[..n];
      FoldKeys(init, k);
      assert forall i :: 0 <= i < n ==> (HasKey(init, i, k) <==> HasKey(entries, i, k));
      if HasKey(entries, n, k) {
        assert k in Fold(entries);
      }
    }
  }

  /** A key's value is the one of the last pair with that key. */
  lemma {:induction false} FoldLastWins(entries: seq<Entry>, i: nat, k: string, v: string)
    requires i < |entries| && entries[i] == Some((k, v))
    requires forall j :: i < j < |entries| ==> !HasKey(entries, j, k)
    ensures k in Fold(entries) && Fold(entries)[k] == v
  {
    var n := |entries| - 1;
    if i < n {
      var init := entries[..n];
      assert forall j :: i < j < n ==> (HasKey(init, j, k) <==> HasKey(entries, j, k));
      FoldLastWins(init, i, k, v);
      assert !HasKey(entries, n, k);
    }
  }

  /** What `multiple_input` makes of each line, line by line. */
  function Entries(lines: seq<string>, options: seq<string>): (e: seq<Entry>)
    ensures |e| == |lines|
  {
    seq(|lines|, i requires 0 <= i < |lines| => ParseLine(lines[i], options))
  }

  /** The dictionary `multiple_input` has built after the given lines: each
      accepted line, in order, sets its key to its value. Every key is an
      option. */
  function Collect(lines: seq<string>, options: seq<string>): (m: map<string, string>)
    ensures forall k :: k in m ==> k in options
  {
    var e := Entries(lines, options);
    assert forall k :: k in Fold(e) ==> k in options by {
      forall k | k in Fold(e) ensures k in options {
        FoldKeys(e, k);
        var i :| 0 <= i < |e| && HasKey(e, i, k);
        assert e[i] == ParseLine(lines[i], options);
      }
    }
    Fold(e)
  }

  /** The line is accepted with key `k`. */
  predicate AcceptedWithKey(line: string, options: seq<string>, k: string)
  {
    ParseLine(line, options).Some? && ParseLine(line, options).value.0 == k
  }

  /** The keys collected are exactly the keys of the accepted lines. */
  lemma CollectKeys(lines: seq<string>, options: seq<string>, k: string)
    ensures k in Collect(lines, options) <==>
              exists i :: 0 <= i < |lines| && AcceptedWithKey(lines[i], options, k)
  {
    var e := Entries(lines, options);
    FoldKeys(e, k);
    assert forall i :: 0 <= i < |lines| ==> (HasKey(e, i, k) <==> AcceptedWithKey(lines[i], options, k));
  }

  /** A key's value is the one on the last accepted line with that key: entering
      an accepted key again overwrites it. */
  lemma CollectLastWins(lines: seq<string>, options: seq<string>, i: nat, k: string, v: string)
    requires i < |lines| && ParseLine(lines[i], options) == Some((k, v))
    requires forall j :: i < j < |lines| ==> !AcceptedWithKey(lines[j], options, k)
    ensures k in Collect(lines, options) && Collect(lines, options)[k] == v
  {
    var e := Entries(lines, options);
    forall j | i < j < |lines|
      ensures !HasKey(e, j, k)
    {
      EntryAt(lines, options, j, k);
    }
    EntryAt(lines, options, i, k);
    FoldLastWins(e, i, k, v);
  }

  /** Entry `j` is line `j` parsed, so it has key `k` exactly when that line is
      accepted with key `k`. */
  lemma EntryAt(lines: seq<string>, options: seq<string>, j: nat, k: string)
    requires j < |lines|
    ensures Entries(lines, options)[j] == ParseLine(lines[j], options)
    ensures HasKey(Entries(lines, options), j, k) <==> AcceptedWithKey(lines[j], options, k)
  {
  }

  /** `opt.remove(x)` with its ValueError ignored: the first occurrence of `x`
      goes, and nothing changes when there is none. */
  function RemoveFirst(s: seq<string>, x: string): (r: seq<string>)
    ensures x !in s ==> r == s
    ensures multiset(r) == multiset(s) - multiset{x}
  {
    if s == [] then []
    else
      assert s == [s[0]] + s[1..];
      if s[0] == x then s[1..] else [s[0]] + RemoveFirst(s[1..], x)
  }

  /** What the prompt list `opt` keeps while lines are read: it is part of
      `options`; a key not entered yet keeps all its occurrences; an entered key
      has lost at least one. */
  ghost predicate PromptInvariant(opt: seq<string>, options: seq<string>, output: map<string, string>)
  {
    && multiset(opt) <= multiset(options)
    && (forall k :: k !in output ==> multiset(opt)[k] == multiset(options)[k])
    && (forall k :: k in output ==> multiset(opt)[k] < multiset(options)[k])
  }

  /** Accepting a line for an option keeps the prompt invariant. */
  lemma PromptStep(opt: seq<string>, options: seq<string>, output: map<string, string>, key: string, v: string)
    requires PromptInvariant(opt, options, output) && key in options
    ensures PromptInvariant(RemoveFirst(opt, key), options, output[key := v])
  {
    var before, after, all := multiset(opt), multiset(RemoveFirst(opt, key)), multiset(options);
    assert all[key] > 0;
    CountStep(before, after, all, output.Keys, key, output[key := v].Keys);
  }

  /** Taking one copy of `key` out of a multiset that keeps every count of the
      keys outside `keys` and has lost some of each key in `keys`. */
  lemma CountStep(before: multiset<string>, after: multiset<string>, all: multiset<string>,
                  keys: set<string>, key: string, keys': set<string>)
    requires before <= all && all[key] > 0 && after == before - multiset{key}
    requires forall k :: k !in keys ==> before[k] == all[k]
    requires forall k :: k in keys ==> before[k] < all[k]
    requires keys' == keys + {key}
    ensures after <= all
    ensures forall k :: k !in keys' ==> after[k] == all[k]
    ensures forall k :: k in keys' ==> after[k] < all[k]
  {
    forall k | k !in keys'
      ensures after[k] == all[k]
    {
      assert after[k] == before[k];
    }
    forall k | k in keys'
      ensures after[k] < all[k]
    {
      if k != key {
        assert after[k] == before[k];
      }
    }
  }

  /** One more line read: the collected dictionary grows by what that line adds. */
  lemma CollectSnoc(lines: seq<string>, line: string, options: seq<string>)
    ensures Collect(lines + [line], options) ==
              match ParseLine(line, options)
              case None => Collect(lines, options)
              case Some((k, v)) => Collect(lines, options)[k := v]
  {
    var e := Entries(lines + [line], options);
    assert e[..|lines|] == Entries(lines, options);
    assert e[|lines|] == ParseLine(line, options);
  }

  /** Extending a prefix by one element. */
  lemma PrefixSnoc<T>(s: seq<T>, n: nat)
    requires n < |s|
    ensures s[..n + 1] == s[..n] + [s[n]]
  {
  }

  /** The body of `multiple_input`'s loop for one line read: a line that is
      not one `key=value` with a known key is skipped (`continue`); an accepted
      line sets its key in the dictionary and removes the key from the prompt
      list. */
  method TakeLine(inp: string, options: seq<string>, ghost read: seq<string>,
                  output: map<string, string>, opt: seq<string>)
    returns (output': map<string, string>, opt': seq<string>)
    requires output == Collect(read, options)
    requires PromptInvariant(opt, options, output)
    ensures output' == Collect(read + [inp], options)
    ensures PromptInvariant(opt', options, output')
  {
    output', opt' := output, opt;
    if '=' !in inp || CountChar(inp, '=') > 1 {
      assert ParseLine(inp, options) == None;
      CollectSnoc(read, inp, options);
      return;
    }
    var index := IndexOf(inp, '=');
    var key := Strip(inp[..index]);
    if key !in options {
      assert ParseLine(inp, options) == None;
      CollectSnoc(read, inp, options);
      return;
    }
    var value := Strip(inp[index + 1..]);
    assert ParseLine(inp, options) == Some((key, value));
    CollectSnoc(read, inp, options);
    PromptStep(opt, options, output, key, value);
    output' := output[key := value];
    opt' := RemoveFirst(opt, key);
  }

  /** `multiple_input`: reads `key=value` lines up to the first empty line and
      returns the dictionary of the accepted ones, `consumed` being how many
      lines were read (the empty one included) and `remaining` the options still
      listed in the prompt. Running out of input before an empty line is `None`
      (the EOFError `input()` raises). */
  method MultipleInput(lines: seq<string>, options: seq<string>)
    returns (r: Option<map<string, string>>, consumed: nat, remaining: seq<string>)
    ensures consumed <= |lines|
    ensures r.Some? <==> "" in lines
    ensures r.Some? ==> && 0 < consumed
                        && lines[consumed - 1] == ""
                        && (forall j :: 0 <= j < consumed - 1 ==> lines[j] != "")
                        && r.value == Collect(lines[..consumed], options)
    ensures r.None? ==> consumed == |lines|
    ensures multiset(remaining) <= multiset(options)
    ensures r.Some? ==> forall k :: k in options && k !in r.value ==> k in remaining
    ensures r.Some? ==> forall k :: k in r.value && multiset(options)[k] == 1 ==> k !in remaining
  {
    var opt := options;
    var output: map<string, string> := map[];
    var inp := "\n";
    consumed := 0;
    while inp != ""
      invariant consumed <= |lines|
      invariant inp != "" ==> "" !in lines[..consumed]
      invariant inp == "" ==> 0 < consumed && lines[consumed - 1] == "" && "" !in lines[..consumed - 1]
      invariant output == Collect(lines[..consumed], options)
      invariant PromptInvariant(opt, options, output)
      decreases |lines| - consumed
    {
      if consumed == |lines| {
        assert lines[..consumed] == lines;
        return None, consumed, opt;
      }
      inp := lines[consumed];
      output, opt := TakeLine(inp, options, lines[..consumed], output, opt);
      PrefixSnoc(lines, consumed);
      consumed := consumed + 1;
    }
    r, remaining := Some(output), opt;
  }

  /** The (key, value) pairs of `d`, as a set comprehension. */
  function Items(d: Attributes): (s: set<(string, string)>)
    ensures forall p :: p in s <==> p.0 in d && d[p.0] == p.1
  {
    set k | k in d :: (k, d[k])
  }

  /** `set_of_dict`: fills a set with the pairs of `d`, one key at a time. */
  method SetOfDict(d: Attributes) returns (s: set<(string, string)>)
    ensures s == Items(d)
  {
    s := {};
    var rest := d.Keys;
    while rest != {}
      invariant rest <= d.Keys
      invariant forall p :: p in s <==> p.0 in d && p.0 !in rest && d[p.0] == p.1
      decreases rest
    {
      var k :| k in rest;
      s := s + {(k, d[k])};
      rest := rest - {k};
    }
  }

  /** `find_property`'s test: the property's pairs include every search pair. */
  predicate Matches(attrs: Attributes, search: Attributes)
    ensures Matches(attrs, search) ==> search.Keys <= attrs.Keys
  {
    Items(search) <= Items(attrs)
  }

  /** A property matches exactly when it has every searched attribute with the
      searched value; in particular the empty search matches every property. */
  lemma MatchesIff(attrs: Attributes, search: Attributes)
    ensures Matches(attrs, search) <==> forall k :: k in search ==> k in attrs && attrs[k] == search[k]
  {
    if Matches(attrs, search) {
      forall k | k in search ensures k in attrs && attrs[k] == search[k] {
        assert (k, search[k]) in Items(search);
      }
    }
  }

  /** The agent's list of properties, in the order they were added. */
  class Agent {
    var propertyList: seq<Attributes>

    constructor ()
      ensures propertyList == []
    {
      propertyList := [];
    }

    /** `add_property`'s append: the new property goes last, the others stay. */
    method AddProperty(p: Attributes)
      modifies this
      ensures propertyList == old(propertyList) + [p]
    {
      propertyList := propertyList + [p];
    }

    /** The loop of `find_property`: the index of the first property whose
        pairs include all the search pairs, and `None` ("Not found") when no
        property's do. */
    method FindProperty(search: Attributes) returns (found: Option<nat>)
      ensures found.Some? ==> && found.value < |propertyList|
                              && Matches(propertyList[found.value], search)
                              && forall j :: 0 <= j < found.value ==> !Matches(propertyList[j], search)
      ensures found.None? ==> forall j :: 0 <= j < |propertyList| ==> !Matches(propertyList[j], search)
    {
      var wanted := SetOfDict(search);
      var i := 0;
      while i < |propertyList|
        invariant 0 <= i <= |propertyList|
        invariant forall j :: 0 <= j < i ==> !Matches(propertyList[j], search)
      {
        var have := SetOfDict(propertyList[i]);
        if have >= wanted {
          return Some(i);
        }
        i := i + 1;
      }
      found := None;
    }
  }

  /** With an empty search the first property is the one found. */
  method EmptySearchFindsFirst(agent: Agent) returns (found: Option<nat>)
    requires |agent.propertyList| > 0
    ensures found == Some(0)
  {
    found := agent.FindProperty(map[]);
    MatchesIff(agent.propertyList[0], map[]);
  }
}

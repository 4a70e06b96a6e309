/** The `key=value;` parameter strings of the audio HAL: parser, printer, and how they relate. */
module AudioParams {
  type Params = map<string, string>

  /** All pieces between the delimiters, empty ones included; an empty string is one empty piece. */
  function Split(s: string, d: char): (parts: seq<string>)
    ensures |parts| > 0
  {
    if s == [] then [[]]
    else if s[0] == d then [[]] + Split(s[1..], d)
    else
      var rest := Split(s[1..], d);
      [[s[0]] + rest[0]] + rest[1..]
  }

  function Join(parts: seq<string>, d: char): string
    requires |parts| > 0
  {
    if |parts| == 1 then parts[0] else parts[0] + [d] + Join(parts[1..], d)
  }

  function AddSegment(m: Params, segment: string): Params {
    if |segment| == 0 then m
    else
      var kv := Split(segment, '=');
      if kv[0] == "" then m else m[kv[0] := if |kv| > 1 then kv[1] else ""]
  }

  function AddSegments(m: Params, segments: seq<string>): Params
    decreases |segments|
  {
    if segments == [] then m else AddSegments(AddSegment(m, segments[0]), segments[1..])
  }

  function Parse(s: string): Params {
    AddSegments(map[], Split(s, ';'))
  }

  method ParseAudioParams(params: string) returns (m: Params)
    ensures m == Parse(params)
  {
    var segments := Split(params, ';');
    m := map[];
    for i := 0 to |segments|
      invariant AddSegments(m, segments[i..]) == Parse(params)
    {
      var segment := segments[i];
      assert segments[i..][1..] == segments[i + 1..];
      if |segment| == 0 {
        continue;
      }
      var kv := Split(segment, '=');
      if kv[0] == "" {
        continue;
      }
      m := m[kv[0] := if |kv| > 1 then kv[1] else ""];
    }
  }

  // ---------------------------------------------------------------------
  // Splitting
  // ---------------------------------------------------------------------

  /** Split is the inverse of joining pieces that do not contain the delimiter. */
  lemma {:induction false} SplitJoins(s: string, d: char)
    ensures Join(Split(s, d), d) == s
    ensures forall i :: 0 <= i < |Split(s, d)| ==> d !in Split(s, d)[i]
  {
    if s != [] {
      SplitJoins(s[1..], d);
      var rest, parts := Split(s[1..], d), Split(s, d);
      if s[0] == d {
        assert parts[1..] == rest;
        assert forall i :: 1 <= i < |parts| ==> parts[i] == rest[i - 1];
      } else {
        assert |rest| > 1 ==> parts[1..] == rest[1..];
        assert forall i :: 1 <= i < |parts| ==> parts[i] == rest[i];
        assert s == [s[0]] + s[1..];
      }
    }
  }

  lemma {:induction false} SplitWhole(s: string, d: char)
    requires d !in s
    ensures Split(s, d) == [s]
  {
    if s != [] {
      SplitWhole(s[1..], d);
      assert [s[0]] + s[1..] == s;
    }
  }

  lemma {:induction false} SplitConcat(a: string, b: string, d: char)
    ensures Split(a + [d] + b, d) == Split(a, d) + Split(b, d)
  {
    var s := a + [d] + b;
    if a == [] {
      assert s[1..] == b;
    } else {
      assert s[1..] == a[1..] + [d] + b;
      SplitConcat(a[1..], b, d);
    }
  }

  /** The pieces of a string are made of its characters. */
  lemma {:induction false} SplitCharacters(s: string, d: char, i: nat, c: char)
    requires i < |Split(s, d)| && c in Split(s, d)[i]
    ensures c in s
  {
    if s != [] {
      if s[0] == d {
        if i > 0 { SplitCharacters(s[1..], d, i - 1, c); }
      } else if i > 0 || c != s[0] {
        SplitCharacters(s[1..], d, i, c);
      }
    }
  }

  // ---------------------------------------------------------------------
  // Parsing a concatenation
  // ---------------------------------------------------------------------

  lemma {:induction false} AddSegmentsOverrides(m: Params, segments: seq<string>)
    ensures AddSegments(m, segments) == m + AddSegments(map[], segments)
    decreases |segments|
  {
    if segments != [] {
      var one := AddSegment(map[], segments[0]);
      assert AddSegment(m, segments[0]) == m + one;
      AddSegmentsOverrides(m + one, segments[1..]);
      AddSegmentsOverrides(one, segments[1..]);
      assert (m + one) + AddSegments(map[], segments[1..]) == m + (one + AddSegments(map[], segments[1..]));
    }
  }

  lemma {:induction false} AddSegmentsConcat(m: Params, xs: seq<string>, ys: seq<string>)
    ensures AddSegments(m, xs + ys) == AddSegments(AddSegments(m, xs), ys)
    decreases |xs|
  {
    if xs == [] {
      assert xs + ys == ys;
    } else {
      assert (xs + ys)[1..] == xs[1..] + ys;
      AddSegmentsConcat(AddSegment(m, xs[0]), xs[1..], ys);
    }
  }

  /** For all strings: parsing `a;b` is parsing `a`, overridden by parsing `b`. */
  lemma ParseConcat(a: string, b: string)
    ensures Parse(a + ";" + b) == Parse(a) + Parse(b)
  {
    SplitConcat(a, b, ';');
    AddSegmentsConcat(map[], Split(a, ';'), Split(b, ';'));
    AddSegmentsOverrides(Parse(a), Split(b, ';'));
  }

  /**
    What one segment means; with ParseConcat this settles every string.  A key
    alone has an empty value, only the first two pieces count, and a segment
    without a key means nothing.
   */
  lemma ParseSegment(k: string, v: string, rest: string)
    requires ';' !in rest && Plain(k) && Plain(v)
    ensures Parse("") == map[]
    ensures Parse("=" + rest) == map[]
    ensures k != "" ==>
              && Parse(k) == map[k := ""]
              && Parse(k + "=" + v) == map[k := v]
              && Parse(k + "=" + v + "=" + rest) == map[k := v]
  {
    hide AddSegments;
    EmptySegment();
    KeylessSegment(rest);
    if k != "" {
      KeyAlone(k);
      ParseEntry(k, v);
      ThirdPieceIsIgnored(k, v, rest);
    }
  }

  lemma EmptySegment()
    ensures Parse("") == map[]
  {
    assert Split("", ';') == [""];
    AddOne(map[], "");
  }

  lemma KeylessSegment(rest: string)
    requires ';' !in rest
    ensures Parse("=" + rest) == map[]
  {
    var s := "=" + rest;
    SplitWhole(s, ';');
    AddOne(map[], s);
    assert Split(s, '=')[0] == "";
  }

  lemma KeyAlone(k: string)
    requires k != "" && Plain(k)
    ensures Parse(k) == map[k := ""]
  {
    SplitWhole(k, ';');
    SplitWhole(k, '=');
    AddOne(map[], k);
  }

  lemma ThirdPieceIsIgnored(k: string, v: string, rest: string)
    requires k != "" && Plain(k) && Plain(v) && ';' !in rest
    ensures Parse(k + "=" + v + "=" + rest) == map[k := v]
  {
    var s := k + "=" + v + "=" + rest;
    SplitWhole(s, ';');
    assert s == Entry(k, v) + "=" + rest;
    SplitConcat(Entry(k, v), rest, '=');
    SplitEntry(k, v);
    assert Split(s, '=') == [k, v] + Split(rest, '=');
    AddOne(map[], s);
    hide Split, AddSegments;
  }

  // ---------------------------------------------------------------------
  // Printing and parsing back
  // ---------------------------------------------------------------------

  function Entry(k: string, v: string): string {
    k + "=" + v
  }

  function Keys(order: seq<string>): set<string> {
    set k | k in order
  }

  /** The printing loop, visiting the keys in the order given. */
  function Print(m: Params, order: seq<string>): string
    requires forall k :: k in order ==> k in m
  {
    if order == [] then "" else Entry(order[0], m[order[0]]) + ";" + Print(m, order[1..])
  }

  /** A hash map may be visited in any order, each key once. */
  ghost predicate Enumerates(m: Params, order: seq<string>) {
    |order| == |m| && Keys(order) == m.Keys && forall k :: k in order ==> k in m
  }

  /** The loop has visited `order`, and `remaining` is still to come. */
  ghost predicate Printing(m: Params, order: seq<string>, remaining: set<string>, result: string) {
    && remaining <= m.Keys && |order| + |remaining| == |m| && Keys(order) == m.Keys - remaining
    && (forall k :: k in order ==> k in m) && result == Print(m, order)
  }

  lemma PrintingStep(m: Params, order: seq<string>, remaining: set<string>, result: string, k: string)
    requires Printing(m, order, remaining, result) && k in remaining
    ensures k in m && Printing(m, order + [k], remaining - {k}, result + (k + "=" + m[k] + ";"))
  {
    PrintSnoc(m, order, k);
    hide Print;
    assert Keys(order + [k]) == Keys(order) + {k};
  }

  lemma PrintingStarts(m: Params)
    ensures Printing(m, [], m.Keys, "")
  {
  }

  lemma PrintingEnds(m: Params, order: seq<string>, result: string)
    requires Printing(m, order, {}, result)
    ensures Enumerates(m, order) && result == Print(m, order)
    ensures Parse(result) == m <==> Clean(m)
  {
    hide Parse, Clean, Print;
    RoundTripIff(m, order);
  }

  method PrintParams(m: Params) returns (result: string)
    ensures exists order :: Enumerates(m, order) && result == Print(m, order)
    ensures Parse(result) == m <==> Clean(m)
  {
    result := "";
    ghost var order := [];
    var remaining := m.Keys;
    PrintingStarts(m);
    hide Printing, Parse, Clean, Print, Enumerates;
    while remaining != {}
      invariant Printing(m, order, remaining, result)
      decreases remaining
    {
      var key :| key in remaining;
      PrintingStep(m, order, remaining, result, key);
      result := result + (key + "=" + m[key] + ";");
      order := order + [key];
      remaining := remaining - {key};
    }
    PrintingEnds(m, order, result);
  }

  lemma {:induction false} PrintSnoc(m: Params, order: seq<string>, k: string)
    requires k in m && forall j :: j in order ==> j in m
    ensures forall j :: j in order + [k] ==> j in m
    ensures Print(m, order + [k]) == Print(m, order) + (k + "=" + m[k] + ";")
  {
    if order == [] {
      assert [k][1..] == [];
    } else {
      PrintSnoc(m, order[1..], k);
      assert (order + [k])[1..] == order[1..] + [k];
    }
  }

  predicate Plain(s: string) {
    ';' !in s && '=' !in s
  }

  /** Keys that are not empty, and no delimiter anywhere. */
  ghost predicate Clean(m: Params) {
    forall k :: k in m ==> k != "" && Plain(k) && Plain(m[k])
  }

  lemma AddOne(m: Params, segment: string)
    ensures AddSegments(m, [segment]) == AddSegment(m, segment)
  {
    hide AddSegment;
    assert [segment][1..] == [];
    assert AddSegments(m, [segment]) == AddSegments(AddSegment(m, segment), []);
  }

  lemma SplitEntry(k: string, v: string)
    requires Plain(k) && Plain(v)
    ensures Split(Entry(k, v), ';') == [Entry(k, v)] && Split(Entry(k, v), '=') == [k, v]
  {
    hide Split;
    var e := Entry(k, v);
    SplitWhole(e, ';');
    assert e == k + ['='] + v;
    SplitConcat(k, v, '=');
    SplitWhole(k, '=');
    SplitWhole(v, '=');
  }

  lemma ParseEntry(k: string, v: string)
    requires k != "" && Plain(k) && Plain(v)
    ensures Parse(Entry(k, v)) == map[k := v]
  {
    hide Split, AddSegments;
    SplitEntry(k, v);
    AddOne(map[], Entry(k, v));
  }

  lemma {:induction false} ParsePrint(m: Params, order: seq<string>)
    requires Clean(m) && forall k :: k in order ==> k in m
    ensures Parse(Print(m, order)).Keys == Keys(order)
    ensures forall k :: k in order ==> k in Parse(Print(m, order)) && Parse(Print(m, order))[k] == m[k]
  {
    if order == [] {
      assert Split("", ';') == [[]];
    } else {
      var k := order[0];
      ParsePrint(m, order[1..]);
      ParseConcat(Entry(k, m[k]), Print(m, order[1..]));
      ParseEntry(k, m[k]);
      assert Keys(order) == {k} + Keys(order[1..]);
    }
  }

  /** Whatever the parser returns has no empty key and no delimiter left. */
  lemma {:induction false} SegmentsAreClean(m: Params, segments: seq<string>)
    requires Clean(m) && forall i :: 0 <= i < |segments| ==> ';' !in segments[i]
    ensures Clean(AddSegments(m, segments))
    decreases |segments|
  {
    if segments != [] {
      SegmentIsClean(m, segments[0]);
      SegmentsAreClean(AddSegment(m, segments[0]), segments[1..]);
    }
  }

  lemma SegmentIsClean(m: Params, segment: string)
    requires Clean(m) && ';' !in segment
    ensures Clean(AddSegment(m, segment))
  {
    var kv := Split(segment, '=');
    SplitJoins(segment, '=');
    forall i | 0 <= i < |kv| ensures Plain(kv[i]) {
      if ';' in kv[i] { SplitCharacters(segment, '=', i, ';'); }
    }
  }

  lemma ParseIsClean(s: string)
    ensures Clean(Parse(s))
  {
    SplitJoins(s, ';');
    SegmentsAreClean(map[], Split(s, ';'));
  }

  /**
    Printing a map, in any order, and parsing the result gives the map back if
    and only if its keys are not empty and no key or value has a delimiter.
   */
  lemma RoundTripIff(m: Params, order: seq<string>)
    requires Enumerates(m, order)
    ensures Parse(Print(m, order)) == m <==> Clean(m)
  {
    ParseIsClean(Print(m, order));
    if Clean(m) {
      ParsePrint(m, order);
      forall k | k in m ensures k in order { assert k in Keys(order); }
    }
  }
}

// Job specifications (resctl-bench-intf/src/jobspec.rs).
module JobSpecs {
  import opened Wrappers

  type PropSet = map<string, string>

  datatype RawSpec = RawSpec(kind: string, id: Option<string>, passive: Option<string>, props: seq<PropSet>)

  // Every job spec has a first property group.
  type Spec = s: RawSpec | |s.props| > 0 witness RawSpec("", None, None, [map[]])

  const IGN_PROP_KEYS: set<string> := {"apply", "commit"}

  predicate Compatible(a: Spec, b: Spec) {
    && a.kind == b.kind && a.id == b.id && a.passive == b.passive
    && a.props[0] - IGN_PROP_KEYS == b.props[0] - IGN_PROP_KEYS
    && a.props[1..] == b.props[1..]
  }

  // Compatible specs differ at most in the ignored keys of their first group.
  lemma CompatibleIff(a: Spec, b: Spec)
    ensures Compatible(a, b) <==>
            && a.kind == b.kind && a.id == b.id && a.passive == b.passive
            && |a.props| == |b.props|
            && (forall i :: 0 < i < |a.props| ==> a.props[i] == b.props[i])
            && (forall k :: k != "apply" && k != "commit" ==>
                  (k in a.props[0] <==> k in b.props[0]) && (k in a.props[0] ==> a.props[0][k] == b.props[0][k]))
  {
    if |a.props| == |b.props| && forall i :: 0 < i < |a.props| ==> a.props[i] == b.props[i] {
      assert a.props[1..] == b.props[1..];
    }
    if a.props[1..] == b.props[1..] {
      forall i | 0 < i < |a.props| ensures a.props[i] == b.props[i] {
        assert a.props[1..][i - 1] == b.props[1..][i - 1];
      }
    }
    if a.props[0] - IGN_PROP_KEYS == b.props[0] - IGN_PROP_KEYS {
      forall k | k !in IGN_PROP_KEYS
        ensures (k in a.props[0] <==> k in b.props[0]) && (k in a.props[0] ==> a.props[0][k] == b.props[0][k])
      {
        assert k in a.props[0] <==> k in a.props[0] - IGN_PROP_KEYS;
        assert k in b.props[0] <==> k in b.props[0] - IGN_PROP_KEYS;
      }
    }
  }
}

// Job specs as text: the command line parser and the printer
// (resctl-bench-intf/src/args.rs, parse_propset and parse_job_spec;
// resctl-bench-intf/src/jobspec.rs, format_job_props).
//
// A property group is printed from an enumeration of its map; the results hold
// for every enumeration, so also for the key order of the original's maps.
module JobSpecText {
  import opened Wrappers
  import opened JobSpecs

  type Pair = (string, string)
  type Group = seq<Pair>

  // ---- Splitting and joining ---------------------------------------------------

  function Split(s: string, c: char): (r: seq<string>)
    ensures |r| > 0
  {
    if s == "" then [""]
    else if s[0] == c then [""] + Split(s[1..], c)
    else
      var r := Split(s[1..], c);
      [[s[0]] + r[0]] + r[1..]
  }

  function Join(parts: seq<string>, c: char): string {
    if parts == [] then ""
    else if |parts| == 1 then parts[0]
    else parts[0] + [c] + Join(parts[1..], c)
  }

  // A token up to its first `=` and after it; no `=` leaves the value empty.
  function SplitEq(tok: string): Pair {
    if tok == "" then ("", "")
    else if tok[0] == '=' then ("", tok[1..])
    else
      var (k, v) := SplitEq(tok[1..]);
      ([tok[0]] + k, v)
  }

  lemma {:induction false} SplitNone(a: string, c: char)
    requires c !in a
    ensures Split(a, c) == [a]
  {
    if a != "" {
      SplitNone(a[1..], c);
      assert [a[0]] + a[1..] == a;
    }
  }

  lemma {:induction false} SplitFirst(a: string, c: char, s: string)
    requires c !in a
    ensures Split(a + [c] + s, c) == [a] + Split(s, c)
  {
    var all := a + [c] + s;
    if a == "" {
      assert all[1..] == s;
    } else {
      assert all[1..] == a[1..] + [c] + s;
      SplitFirst(a[1..], c, s);
      assert [a[0]] + a[1..] == a;
      assert Split(all[1..], c)[1..] == Split(s, c);
    }
  }

  lemma {:induction false} SplitJoin(parts: seq<string>, c: char)
    requires parts != [] && forall i :: 0 <= i < |parts| ==> c !in parts[i]
    ensures Split(Join(parts, c), c) == parts
  {
    if |parts| == 1 {
      SplitNone(parts[0], c);
    } else {
      SplitJoin(parts[1..], c);
      SplitFirst(parts[0], c, Join(parts[1..], c));
    }
  }

  // The parts of a split hold characters of the text and no separator.
  lemma {:induction false} SplitClean(s: string, c: char)
    ensures forall i :: 0 <= i < |Split(s, c)| ==>
              c !in Split(s, c)[i] && forall x :: x in Split(s, c)[i] ==> x in s
  {
    if s != "" {
      SplitClean(s[1..], c);
      var r := Split(s[1..], c);
      assert forall x :: x in s[1..] ==> x in s;
      forall i | 0 <= i < |Split(s, c)|
        ensures c !in Split(s, c)[i] && forall x :: x in Split(s, c)[i] ==> x in s
      {
        if s[0] == c {
          assert i > 0 ==> Split(s, c)[i] == r[i - 1];
        } else {
          assert Split(s, c)[i] == if i == 0 then [s[0]] + r[0] else r[i];
        }
      }
    }
  }

  lemma {:induction false} JoinChars(parts: seq<string>, c: char, x: char)
    requires x != c && forall i :: 0 <= i < |parts| ==> x !in parts[i]
    ensures x !in Join(parts, c)
  {
    if |parts| > 1 {
      JoinChars(parts[1..], c, x);
    }
  }

  lemma {:induction false} SplitEqClean(tok: string)
    ensures '=' !in SplitEq(tok).0
    ensures forall x :: x in SplitEq(tok).0 || x in SplitEq(tok).1 ==> x in tok
  {
    if tok != "" && tok[0] != '=' {
      SplitEqClean(tok[1..]);
    }
  }

  // ---- Printing -----------------------------------------------------------------

  function PrintPair(p: Pair): string {
    if p.1 == "" then p.0 else p.0 + "=" + p.1
  }

  function PrintPairs(g: Group): (r: seq<string>)
    ensures |r| == |g|
  {
    seq(|g|, i requires 0 <= i < |g| => PrintPair(g[i]))
  }

  function PrintGroup(g: Group): string {
    Join(PrintPairs(g), ',')
  }

  function PrintGroups(gs: seq<Group>): (r: seq<string>)
    ensures |r| == |gs|
  {
    seq(|gs|, i requires 0 <= i < |gs| => PrintGroup(gs[i]))
  }

  function Print(gs: seq<Group>): string {
    Join(PrintGroups(gs), ':')
  }

  lemma {:induction false} JoinSnoc(parts: seq<string>, p: string, c: char)
    ensures Join(parts + [p], c) == Join(parts, c) + (if parts == [] then "" else [c]) + p
  {
    if parts == [] {
      assert [] + [p] == [p];
    } else if |parts| == 1 {
      assert (parts + [p])[1..] == [p];
    } else {
      JoinSnoc(parts[1..], p, c);
      assert (parts + [p])[1..] == parts[1..] + [p];
    }
  }

  // format_job_props, the loop over one group.
  method AppendGroup(buf: string, g: Group) returns (res: string)
    ensures res == buf + PrintGroup(g)
  {
    hide JoinedUpto;
    res := buf;
    var firstProp := true;
    JoinedPairs(g);
    for j := 0 to |g|
      invariant firstProp <==> j == 0
      invariant res == buf + JoinedUpto(g, j)
    {
      NextPair(g, j);
      if !firstProp {
        res := res + ",";
      }
      firstProp := false;
      res := res + g[j].0;
      if |g[j].1| > 0 {
        res := res + "=" + g[j].1;
      }
    }
  }

  // The first `j` pairs of a group, printed.
  function JoinedUpto(g: Group, j: nat): string
    requires j <= |g|
  {
    Join(PrintPairs(g)[..j], ',')
  }

  lemma JoinedPairs(g: Group)
    ensures JoinedUpto(g, 0) == "" && JoinedUpto(g, |g|) == PrintGroup(g)
  {
    assert PrintPairs(g)[..|g|] == PrintPairs(g);
  }

  lemma NextPair(g: Group, j: nat)
    requires j < |g|
    ensures JoinedUpto(g, j + 1)
         == JoinedUpto(g, j) + (if j == 0 then "" else ",") + g[j].0 + (if |g[j].1| > 0 then "=" + g[j].1 else "")
  {
    assert PrintPairs(g)[..j + 1] == PrintPairs(g)[..j] + [PrintPair(g[j])];
    JoinSnoc(PrintPairs(g)[..j], PrintPair(g[j]), ',');
  }

  method FormatJobProps(gs: seq<Group>) returns (buf: string)
    ensures buf == Print(gs)
  {
    buf := "";
    var firstGroup := true;
    for i := 0 to |gs|
      invariant firstGroup <==> i == 0
      invariant buf == Join(PrintGroups(gs)[..i], ':')
    {
      assert PrintGroups(gs)[..i + 1] == PrintGroups(gs)[..i] + [PrintGroup(gs[i])];
      JoinSnoc(PrintGroups(gs)[..i], PrintGroup(gs[i]), ':');
      hide Join, PrintGroup;
      if !firstGroup {
        buf := buf + ":";
      }
      firstGroup := false;
      buf := AppendGroup(buf, gs[i]);
    }
    assert PrintGroups(gs)[..|gs|] == PrintGroups(gs);
  }

  // ---- Parsing ------------------------------------------------------------------

  // Later tokens override earlier ones; empty tokens are skipped.
  function PropsOf(toks: seq<string>): PropSet {
    if toks == [] then map[]
    else
      var n := |toks| - 1;
      var before := PropsOf(toks[..n]);
      if toks[n] == "" then before
      else before[SplitEq(toks[n]).0 := SplitEq(toks[n]).1]
  }

  method SplitAtEq(tok: string) returns (kv: Pair)
    ensures kv == SplitEq(tok)
  {
    for i := 0 to |tok|
      invariant '=' !in tok[..i]
    {
      if tok[i] == '=' {
        assert tok == tok[..i] + "=" + tok[i + 1..];
        SplitEqFirst(tok[..i], tok[i + 1..]);
        return (tok[..i], tok[i + 1..]);
      }
    }
    assert tok[..|tok|] == tok;
    SplitEqNone(tok);
    kv := (tok, "");
  }

  method ParsePropset(input: string) returns (propset: PropSet)
    ensures propset == PropsOf(Split(input, ','))
  {
    propset := map[];
    var toks := Split(input, ',');
    for i := 0 to |toks|
      invariant propset == PropsOf(toks[..i])
    {
      assert toks[..i + 1][..i] == toks[..i];
      if |toks[i]| != 0 {
        var kv := SplitAtEq(toks[i]);
        propset := propset[kv.0 := kv.1];
      }
    }
    assert toks[..|toks|] == toks;
  }

  const RESERVED: set<string> := {"id", "passive"}

  function Lookup(m: PropSet, k: string): Option<string> {
    if k in m then Some(m[k]) else None
  }

  // The groups' properties without the reserved ones.
  function PropsFrom(groups: seq<string>): (r: seq<PropSet>)
    ensures |r| == |groups|
  {
    seq(|groups|, i requires 0 <= i < |groups| => PropsOf(Split(groups[i], ',')) - RESERVED)
  }

  // What parse_job_spec makes of the kind and the groups after it: `id` and
  // `passive` are those of the last group, whatever the ones before it say.
  function SpecFrom(kind: string, groups: seq<string>): Spec {
    if groups == [] then RawSpec(kind, None, None, [map[]])
    else
      var last := PropsOf(Split(groups[|groups| - 1], ','));
      RawSpec(kind, Lookup(last, "id"), Lookup(last, "passive"), PropsFrom(groups))
  }

  function Parse(text: string): Spec {
    var parts := Split(text, ':');
    SpecFrom(parts[0], parts[1..])
  }

  method ParseJobSpec(text: string) returns (spec: Spec)
    ensures spec == Parse(text)
  {
    hide PropsOf, Split;
    var parts := Split(text, ':');
    var kind, groups := parts[0], parts[1..];
    var props: seq<PropSet> := [];
    var id: Option<string>, passive: Option<string> := None, None;
    for i := 0 to |groups|
      invariant props == PropsFrom(groups[..i])
      invariant i == 0 ==> id == None && passive == None
      invariant i > 0 ==> id == Lookup(PropsOf(Split(groups[i - 1], ',')), "id")
      invariant i > 0 ==> passive == Lookup(PropsOf(Split(groups[i - 1], ',')), "passive")
    {
      var propset := ParsePropset(groups[i]);
      ghost var all := propset;
      id := Lookup(propset, "id");
      propset := propset - {"id"};
      passive := Lookup(propset, "passive");
      propset := propset - {"passive"};
      assert propset == all - RESERVED;
      assert PropsFrom(groups[..i + 1]) == PropsFrom(groups[..i]) + [propset];
      props := props + [propset];
    }
    assert groups[..|groups|] == groups;
    if |props| == 0 {
      props := [map[]];
    }
    spec := RawSpec(kind, id, passive, props);
  }

  // The last token with a key decides its value; a key without such a token is not
  // there.
  lemma {:induction false} LastTokenWins(toks: seq<string>, key: string)
    ensures key in PropsOf(toks) <==> exists i :: 0 <= i < |toks| && toks[i] != "" && SplitEq(toks[i]).0 == key
    ensures forall i :: 0 <= i < |toks| && toks[i] != "" && SplitEq(toks[i]).0 == key
                        && (forall j :: i < j < |toks| ==> toks[j] == "" || SplitEq(toks[j]).0 != key) ==>
              key in PropsOf(toks) && PropsOf(toks)[key] == SplitEq(toks[i]).1
  {
    if toks != [] {
      var n := |toks| - 1;
      LastTokenWins(toks[..n], key);
      assert forall i :: 0 <= i < n ==> toks[..n][i] == toks[i];
      if toks[n] != "" && SplitEq(toks[n]).0 == key {
        assert key in PropsOf(toks);
      }
    }
  }

  // A bare kind has no id, no passive and one empty group.
  lemma BareKind(text: string)
    requires ':' !in text
    ensures Parse(text) == RawSpec(text, None, None, [map[]])
  {
    SplitNone(text, ':');
  }

  // Splitting loses nothing.
  lemma {:induction false} JoinSplit(s: string, c: char)
    ensures Join(Split(s, c), c) == s
  {
    if s != "" {
      JoinSplit(s[1..], c);
      var r := Split(s[1..], c);
      assert s == [s[0]] + s[1..];
      if s[0] == c {
        assert ([""] + r)[1..] == r;
      } else {
        var head := [s[0]] + r[0];
        assert ([head] + r[1..])[1..] == r[1..];
        assert |r| > 1 ==> head + [c] + Join(r[1..], c) == [s[0]] + (r[0] + [c] + Join(r[1..], c));
      }
    }
  }

  // ---- Round trip ----------------------------------------------------------------

  function PairsMap(g: Group): PropSet {
    if g == [] then map[]
    else PairsMap(g[..|g| - 1])[g[|g| - 1].0 := g[|g| - 1].1]
  }

  ghost predicate DistinctKeys(g: Group) {
    forall i, j :: 0 <= i < j < |g| ==> g[i].0 != g[j].0
  }

  function Maps(gs: seq<Group>): (r: seq<PropSet>)
    ensures |r| == |gs|
  {
    seq(|gs|, i requires 0 <= i < |gs| => PairsMap(gs[i]))
  }

  // No separator inside a key or a value; a value may hold `=`.
  ghost predicate PairClean(p: Pair) {
    && ',' !in p.0 && ':' !in p.0 && '=' !in p.0
    && ',' !in p.1 && ':' !in p.1
  }

  ghost predicate MapClean(m: PropSet) {
    forall k :: k in m ==> PairClean((k, m[k]))
  }

  ghost predicate GroupClean(g: Group) {
    forall i :: 0 <= i < |g| ==> PairClean(g[i])
  }

  // A key-only property with an empty key prints as nothing.
  predicate PrintsNothing(m: PropSet) {
    "" in m && m[""] == ""
  }

  // What survives printing.
  function Visible(m: PropSet): PropSet {
    if PrintsNothing(m) then m - {""} else m
  }

  lemma {:induction false} PairsMapKeys(g: Group)
    ensures forall k :: k in PairsMap(g) <==> exists i :: 0 <= i < |g| && g[i].0 == k
  {
    if g != [] {
      var n := |g| - 1;
      PairsMapKeys(g[..n]);
      forall k ensures k in PairsMap(g) <==> exists i :: 0 <= i < |g| && g[i].0 == k {
        if i :| 0 <= i < |g| && g[i].0 == k {
          if i < n {
            assert g[..n][i].0 == k;
          }
        }
        if k in PairsMap(g[..n]) {
          var i :| 0 <= i < n && g[..n][i].0 == k;
          assert g[i].0 == k;
        } else if k in PairsMap(g) {
          assert g[n].0 == k;
        }
      }
    }
  }

  lemma {:induction false} PairsMapHas(g: Group)
    requires DistinctKeys(g)
    ensures forall i :: 0 <= i < |g| ==> g[i].0 in PairsMap(g) && PairsMap(g)[g[i].0] == g[i].1
  {
    if g != [] {
      var n := |g| - 1;
      PairsMapHas(g[..n]);
      forall i | 0 <= i < n ensures g[i].0 in PairsMap(g) && PairsMap(g)[g[i].0] == g[i].1 {
        assert g[..n][i] == g[i];
      }
    }
  }

  lemma {:induction false} SplitEqNone(k: string)
    requires '=' !in k
    ensures SplitEq(k) == (k, "")
  {
    if k != "" {
      SplitEqNone(k[1..]);
      assert [k[0]] + k[1..] == k;
    }
  }

  lemma {:induction false} SplitEqFirst(k: string, v: string)
    requires '=' !in k
    ensures SplitEq(k + "=" + v) == (k, v)
  {
    var tok := k + "=" + v;
    if k == "" {
      assert tok[1..] == v;
    } else {
      assert tok[1..] == k[1..] + "=" + v;
      SplitEqFirst(k[1..], v);
      assert [k[0]] + k[1..] == k;
    }
  }

  lemma PairRoundTrip(p: Pair)
    requires PairClean(p)
    ensures PrintPair(p) == "" <==> p == ("", "")
    ensures SplitEq(PrintPair(p)) == p
    ensures ',' !in PrintPair(p) && ':' !in PrintPair(p)
  {
    if p.1 == "" {
      SplitEqNone(p.0);
    } else {
      SplitEqFirst(p.0, p.1);
    }
  }

  lemma LastKeyIsNew(g: Group)
    requires DistinctKeys(g) && g != []
    ensures DistinctKeys(g[..|g| - 1])
    ensures g[|g| - 1].0 !in PairsMap(g[..|g| - 1])
  {
    var n := |g| - 1;
    PairsMapKeys(g[..n]);
    forall i | 0 <= i < n ensures g[..n][i].0 != g[n].0 {
      assert g[..n][i] == g[i];
    }
  }

  lemma VisibleSnoc(m: PropSet, p: Pair)
    requires p.0 !in m
    ensures Visible(m[p.0 := p.1]) == if p == ("", "") then Visible(m) else Visible(m)[p.0 := p.1]
  {
  }

  // Reading back the printed pairs gives the group, except for a pair that
  // prints as nothing.
  lemma {:induction false} PairsRoundTrip(g: Group)
    requires DistinctKeys(g) && GroupClean(g)
    ensures PropsOf(PrintPairs(g)) == Visible(PairsMap(g))
  {
    if g != [] {
      var n := |g| - 1;
      LastKeyIsNew(g);
      PairsRoundTrip(g[..n]);
      assert PrintPairs(g)[..n] == PrintPairs(g[..n]);
      PairRoundTrip(g[n]);
      VisibleSnoc(PairsMap(g[..n]), g[n]);
      hide Visible, SplitEq, DistinctKeys;
    }
  }

  lemma GroupRoundTrip(g: Group)
    requires DistinctKeys(g) && GroupClean(g)
    ensures PropsOf(Split(PrintGroup(g), ',')) == Visible(PairsMap(g))
    ensures ':' !in PrintGroup(g)
  {
    forall i | 0 <= i < |g| ensures ',' !in PrintPairs(g)[i] && ':' !in PrintPairs(g)[i] {
      PairRoundTrip(g[i]);
    }
    JoinChars(PrintPairs(g), ',', ':');
    if g == [] {
      assert Split("", ',') == [""];
      assert PropsOf([""]) == PropsOf([]) by {
        assert [""][..0] == [];
      }
    } else {
      SplitJoin(PrintPairs(g), ',');
      PairsRoundTrip(g);
    }
  }

  ghost predicate GroupsClean(gs: seq<Group>) {
    forall i :: 0 <= i < |gs| ==> GroupClean(gs[i])
  }

  // Every group enumerates a map: no key twice.
  ghost predicate Enumerated(gs: seq<Group>) {
    gs != [] && forall i :: 0 <= i < |gs| ==> DistinctKeys(gs[i])
  }

  // What printing and parsing gives back, reserved keys and all.
  lemma PrintThenParse(kind: string, gs: seq<Group>)
    requires Enumerated(gs) && GroupsClean(gs) && ':' !in kind
    ensures var spec := Parse(kind + ":" + Print(gs));
            var last := Visible(Maps(gs)[|gs| - 1]);
            && spec.kind == kind
            && spec.id == Lookup(last, "id") && spec.passive == Lookup(last, "passive")
            && |spec.props| == |gs|
            && forall i :: 0 <= i < |gs| ==> spec.props[i] == Visible(Maps(gs)[i]) - RESERVED
  {
    forall i | 0 <= i < |gs|
      ensures ':' !in PrintGroups(gs)[i]
      ensures PropsOf(Split(PrintGroups(gs)[i], ',')) == Visible(Maps(gs)[i])
    {
      GroupRoundTrip(gs[i]);
    }
    SplitJoin(PrintGroups(gs), ':');
    SplitFirst(kind, ':', Print(gs));
    assert Split(kind + ":" + Print(gs), ':')[1..] == PrintGroups(gs);
  }

  // ---- Exactly when the round trip is clean ---------------------------------------

  lemma {:induction false} PropsOfClean(toks: seq<string>)
    requires forall i :: 0 <= i < |toks| ==> ',' !in toks[i] && ':' !in toks[i]
    ensures MapClean(PropsOf(toks))
  {
    if toks != [] {
      var n := |toks| - 1;
      PropsOfClean(toks[..n]);
      SplitEqClean(toks[n]);
    }
  }

  // Whatever the text, parsing yields clean properties and no reserved key.
  lemma ParsedIsClean(text: string)
    ensures var spec := Parse(text);
            && ':' !in spec.kind
            && forall i :: 0 <= i < |spec.props| ==>
                 MapClean(spec.props[i]) && spec.props[i].Keys !! RESERVED
  {
    SplitClean(text, ':');
    var groups := Split(text, ':')[1..];
    forall i | 0 <= i < |groups|
      ensures MapClean(PropsFrom(groups)[i]) && PropsFrom(groups)[i].Keys !! RESERVED
    {
      assert ':' !in groups[i];
      SplitClean(groups[i], ',');
      PropsOfClean(Split(groups[i], ','));
    }
  }

  lemma GroupOfCleanMap(g: Group)
    requires DistinctKeys(g) && MapClean(PairsMap(g))
    ensures GroupClean(g)
  {
    PairsMapHas(g);
    forall i | 0 <= i < |g| ensures PairClean(g[i]) {
      assert PairClean((g[i].0, PairsMap(g)[g[i].0]));
    }
  }

  // What a caller has to check of a kind and its property maps.
  ghost predicate Printable(kind: string, maps: seq<PropSet>) {
    && ':' !in kind
    && forall i :: 0 <= i < |maps| ==>
         MapClean(maps[i]) && maps[i].Keys !! RESERVED && !PrintsNothing(maps[i])
  }

  // Printing then parsing returns the same kind and the same property maps,
  // exactly when they are printable.
  lemma RoundTripIff(kind: string, gs: seq<Group>)
    requires Enumerated(gs)
    ensures Parse(kind + ":" + Print(gs)) == RawSpec(kind, None, None, Maps(gs)) <==> Printable(kind, Maps(gs))
  {
    var spec := Parse(kind + ":" + Print(gs));
    ParsedIsClean(kind + ":" + Print(gs));
    if spec == RawSpec(kind, None, None, Maps(gs)) {
      forall i | 0 <= i < |gs| ensures GroupClean(gs[i]) {
        assert MapClean(spec.props[i]);
        GroupOfCleanMap(gs[i]);
      }
      PrintThenParse(kind, gs);
      forall i | 0 <= i < |gs|
        ensures MapClean(Maps(gs)[i]) && Maps(gs)[i].Keys !! RESERVED && !PrintsNothing(Maps(gs)[i])
      {
        assert spec.props[i] == Visible(Maps(gs)[i]) - RESERVED;
      }
    }
    if Printable(kind, Maps(gs)) {
      forall i | 0 <= i < |gs| ensures GroupClean(gs[i]) {
        assert MapClean(Maps(gs)[i]);
        GroupOfCleanMap(gs[i]);
      }
      PrintThenParse(kind, gs);
      forall i | 0 <= i < |gs| ensures spec.props[i] == Maps(gs)[i] {
        assert Maps(gs)[i] - RESERVED == Maps(gs)[i];
      }
      assert spec.props == Maps(gs);
    }
  }

  // Any parsed spec prints to text that parses to the same spec without `id` and
  // `passive`, unless one of its groups holds the lone token `=`.
  lemma ReparseIff(text: string, gs: seq<Group>)
    requires Enumerated(gs) && Maps(gs) == Parse(text).props
    ensures var spec := Parse(text);
            Parse(spec.kind + ":" + Print(gs)) == spec.(id := None, passive := None)
            <==> forall i :: 0 <= i < |spec.props| ==> !PrintsNothing(spec.props[i])
  {
    ParsedIsClean(text);
    RoundTripIff(Parse(text).kind, gs);
  }

  // The round trip of a whole spec: exact if and only if it has no `id`, no
  // `passive`, and is printable.
  lemma SpecRoundTripIff(spec: Spec, gs: seq<Group>)
    requires Enumerated(gs) && Maps(gs) == spec.props
    ensures Parse(spec.kind + ":" + Print(gs)) == spec
            <==> spec.id == None && spec.passive == None && Printable(spec.kind, spec.props)
  {
    var back := Parse(spec.kind + ":" + Print(gs));
    RoundTripIff(spec.kind, gs);
    if back == spec {
      NothingReserved(spec, gs);
    }
  }

  // A spec that comes back unchanged has no reserved key, so nothing to take an
  // `id` or `passive` from.
  lemma NothingReserved(spec: Spec, gs: seq<Group>)
    requires Enumerated(gs) && Maps(gs) == spec.props
    requires Parse(spec.kind + ":" + Print(gs)) == spec
    ensures spec.id == None && spec.passive == None
  {
    ParsedIsClean(spec.kind + ":" + Print(gs));
    forall i | 0 <= i < |gs| ensures GroupClean(gs[i]) {
      assert MapClean(spec.props[i]);
      GroupOfCleanMap(gs[i]);
    }
    PrintThenParse(spec.kind, gs);
    assert spec.props[|gs| - 1].Keys !! RESERVED;
    assert "id" in RESERVED && "passive" in RESERVED;
  }

  lemma OnePair(p: Pair)
    ensures PairsMap([p]) == map[p.0 := p.1]
  {
    assert [p][..0] == [];
  }

  // An `id` in a group before the last is lost: for every clean value and key, the
  // groups `id=a` and `key` parse to no id and an empty first group.
  lemma EarlierIdIsLost(kind: string, a: string, key: string)
    requires ':' !in kind && PairClean(("id", a)) && PairClean((key, "")) && key != "" && key !in RESERVED
    ensures var spec := Parse(kind + ":" + Print([[("id", a)], [(key, "")]]));
            spec.id == None && spec.props == [map[], map[key := ""]]
  {
    var gs := [[("id", a)], [(key, "")]];
    OnePair(("id", a));
    OnePair((key, ""));
    PrintThenParse(kind, gs);
    assert Maps(gs)[0] == map["id" := a] && Maps(gs)[1] == map[key := ""];
    assert map["id" := a] - RESERVED == map[];
    assert map[key := ""] - RESERVED == map[key := ""];
  }
}

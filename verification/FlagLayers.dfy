/**
 The precedence chain as a list of layers, and what merging them means. This is the simple
 layered lookup that the map-merging code of pkg/config is measured against.
 */
module FlagLayers {

  datatype Value = BoolValue(on: bool) | TextValue(text: string) | ListValue(items: seq<string>)

  /** A typed value and the layer it came from; an empty source is filled in by the layer. */
  datatype FlagValue = FlagValue(value: Value, source: string)

  type Flags = map<string, FlagValue>

  const DEFAULT := "default"
  const PROFILE := "profile"
  const COMMAND := "command"
  const RUNTIME := "runtime"

  datatype Layer = Layer(origin: string, flags: Flags, fallback: string)

  /** The three values that an override line is formatted from. */
  datatype Override = Override(origin: string, name: string, was: string)

  function Sourced(v: FlagValue, fallback: string): FlagValue {
    if v.source == "" then v.(source := fallback) else v
  }

  // ---------- one layer on top of a flag set ----------

  function Put(flags: Flags, l: Layer): (r: Flags)
    ensures r.Keys == flags.Keys + l.flags.Keys
  {
    map n | n in flags.Keys + l.flags.Keys :: if n in l.flags then Sourced(l.flags[n], l.fallback) else flags[n]
  }

  /** One line for every name the layer defines that was set before. */
  function LinesOf(flags: Flags, l: Layer): set<Override> {
    set n | n in l.flags.Keys * flags.Keys :: Override(l.origin, n, flags[n].source)
  }

  // ---------- all layers ----------

  function Merge(layers: seq<Layer>): Flags {
    if layers == [] then map[] else Put(Merge(layers[..|layers| - 1]), layers[|layers| - 1])
  }

  /** The lines stand in the order of the layers; within a layer any order will do. */
  predicate Listed(lines: seq<Override>, layers: seq<Layer>)
    decreases |layers|
  {
    if layers == [] then lines == []
    else
      var below := layers[..|layers| - 1];
      var own := LinesOf(Merge(below), layers[|layers| - 1]);
      |own| <= |lines| &&
      var split := |lines| - |own|;
      multiset(lines[split..]) == multiset(own) && Listed(lines[..split], below)
  }

  function Sizes(layers: seq<Layer>): nat {
    if layers == [] then 0 else Sizes(layers[..|layers| - 1]) + |layers[|layers| - 1].flags|
  }

  // ---------- the last layer that defines a name decides ----------

  predicate IsLastDefining(layers: seq<Layer>, i: nat, name: string) {
    && i < |layers| && name in layers[i].flags
    && forall k :: i < k < |layers| ==> name !in layers[k].flags
  }

  lemma {:induction false} LastLayerDecides(layers: seq<Layer>, i: nat, name: string)
    requires IsLastDefining(layers, i, name)
    ensures name in Merge(layers) && Merge(layers)[name] == Sourced(layers[i].flags[name], layers[i].fallback)
    ensures var own, merged := layers[i].flags[name], Merge(layers)[name];
            merged.value == own.value && merged.source == (if own.source == "" then layers[i].fallback else own.source)
    decreases |layers|
  {
    var top := |layers| - 1;
    if i < top {
      assert name !in layers[top].flags;
      assert IsLastDefining(layers[..top], i, name);
      LastLayerDecides(layers[..top], i, name);
    }
  }

  lemma {:induction false} SetIffDefined(layers: seq<Layer>, name: string)
    ensures name in Merge(layers) <==> exists i: nat :: IsLastDefining(layers, i, name)
    decreases |layers|
  {
    hide Put;
    if layers != [] {
      var top := |layers| - 1;
      SetIffDefined(layers[..top], name);
      if name in layers[top].flags {
        assert IsLastDefining(layers, top, name);
      } else {
        if i: nat :| IsLastDefining(layers, i, name) {
          assert IsLastDefining(layers[..top], i, name);
        }
        if i: nat :| IsLastDefining(layers[..top], i, name) {
          assert IsLastDefining(layers, i, name);
        }
      }
    }
  }

  // ---------- what a line says ----------

  /** Layer i redefines the name, and j is the nearest earlier layer that defines it. */
  predicate Supersedes(layers: seq<Layer>, i: nat, j: nat, name: string) {
    && i < |layers| && name in layers[i].flags
    && IsLastDefining(layers[..i], j, name)
  }

  predicate SaysTheNearest(layers: seq<Layer>, o: Override, i: nat, j: nat) {
    && Supersedes(layers, i, j, o.name) && o.origin == layers[i].origin
    && o.was == Sourced(layers[j].flags[o.name], layers[j].fallback).source
  }

  lemma LinesOfTop(layers: seq<Layer>, o: Override)
    requires layers != []
    ensures var top := |layers| - 1;
            o in LinesOf(Merge(layers[..top]), layers[top]) <==> exists j: nat :: SaysTheNearest(layers, o, top, j)
  {
    var top := |layers| - 1;
    var below := layers[..top];
    SetIffDefined(below, o.name);
    if o.name in Merge(below) {
      var j: nat :| IsLastDefining(below, j, o.name);
      LastLayerDecides(below, j, o.name);
      if o in LinesOf(Merge(below), layers[top]) {
        assert SaysTheNearest(layers, o, top, j);
      }
      if k: nat :| SaysTheNearest(layers, o, top, k) {
        assert k == j;
        assert o.name in layers[top].flags.Keys * Merge(below).Keys;
      }
    }
  }

  /** A line is listed exactly for a layer that redefines the name, and names the source of the nearest earlier one. */
  lemma {:induction false} LineNamesTheNearest(lines: seq<Override>, layers: seq<Layer>, o: Override)
    requires Listed(lines, layers)
    ensures o in lines <==> exists i: nat, j: nat :: SaysTheNearest(layers, o, i, j)
    decreases |layers|
  {
    hide SaysTheNearest, LinesOf;
    IndexInRange(layers, o);
    if layers != [] {
      var top := |layers| - 1;
      var own := LinesOf(Merge(layers[..top]), layers[top]);
      var split := |lines| - |own|;
      LinesOfTop(layers, o);
      LineNamesTheNearest(lines[..split], layers[..top], o);
      assert lines == lines[..split] + lines[split..];
      assert o in lines[split..] <==> o in multiset(lines[split..]);
      assert o in lines <==> o in lines[..split] || o in own;
      forall i: nat, j: nat | i < top
        ensures SaysTheNearest(layers, o, i, j) <==> SaysTheNearest(layers[..top], o, i, j)
      {
        LowerLayersSuffice(layers, o, i, j);
      }
      IndexInRange(layers[..top], o);
    }
  }

  lemma IndexInRange(layers: seq<Layer>, o: Override)
    ensures forall i: nat, j: nat :: SaysTheNearest(layers, o, i, j) ==> i < |layers|
  {
  }

  lemma LowerLayersSuffice(layers: seq<Layer>, o: Override, i: nat, j: nat)
    requires i < |layers| - 1
    ensures SaysTheNearest(layers, o, i, j) <==> SaysTheNearest(layers[..|layers| - 1], o, i, j)
  {
    assert layers[..|layers| - 1][..i] == layers[..i];
  }

  // ---------- conservation ----------

  lemma {:induction false} OneLinePerName(flags: Flags, origin: string, names: set<string>)
    requires names <= flags.Keys
    ensures |set n | n in names :: Override(origin, n, flags[n].source)| == |names|
  {
    var lines := set n | n in names :: Override(origin, n, flags[n].source);
    if names == {} {
      assert lines == {};
    } else {
      var n :| n in names;
      var fewer := set m | m in names - {n} :: Override(origin, m, flags[m].source);
      OneLinePerName(flags, origin, names - {n});
      assert lines == fewer + {Override(origin, n, flags[n].source)};
    }
  }

  lemma UnionSize<T>(a: set<T>, b: set<T>)
    ensures |a + b| + |b * a| == |a| + |b|
  {
    assert a + b == a + (b - a) && b == (b - a) + b * a;
  }

  lemma MapSize(flags: Flags)
    ensures |flags| == |flags.Keys|
  {
  }

  lemma PutConserves(flags: Flags, l: Layer)
    ensures |LinesOf(flags, l)| + |Put(flags, l)| == |flags| + |l.flags|
  {
    var both := l.flags.Keys * flags.Keys;
    OneLinePerName(flags, l.origin, both);
    UnionSize(flags.Keys, l.flags.Keys);
    hide Put;
    MapSize(Put(flags, l));
    MapSize(flags);
    MapSize(l.flags);
  }

  /** Every entry of every layer ends as a resolved flag or is accounted for by one line. */
  lemma {:induction false} NothingIsLost(lines: seq<Override>, layers: seq<Layer>)
    requires Listed(lines, layers)
    ensures |lines| + |Merge(layers)| == Sizes(layers)
    decreases |layers|
  {
    hide Put, LinesOf;
    if layers != [] {
      var top := |layers| - 1;
      var own := LinesOf(Merge(layers[..top]), layers[top]);
      NothingIsLost(lines[..|lines| - |own|], layers[..top]);
      PutConserves(Merge(layers[..top]), layers[top]);
    }
  }

  lemma InTwoParts<T>(s: seq<T>, i: nat)
    requires i <= |s|
    ensures multiset(s) == multiset(s[..i]) + multiset(s[i..])
  {
    assert s == s[..i] + s[i..];
  }

  /** Two runs over the same layers list the same lines, whatever the order within a layer. */
  lemma {:induction false} SameLines(a: seq<Override>, b: seq<Override>, layers: seq<Layer>)
    requires Listed(a, layers) && Listed(b, layers)
    ensures multiset(a) == multiset(b) && |a| == |b|
    decreases |layers|
  {
    hide LinesOf, Merge;
    if layers != [] {
      var top := |layers| - 1;
      var n := |LinesOf(Merge(layers[..top]), layers[top])|;
      SameLines(a[..|a| - n], b[..|b| - n], layers[..top]);
      InTwoParts(a, |a| - n);
      InTwoParts(b, |b| - n);
    }
  }

  lemma OneMoreLayer(lines: seq<Override>, own: seq<Override>, layers: seq<Layer>, l: Layer)
    requires Listed(lines, layers) && multiset(own) == multiset(LinesOf(Merge(layers), l))
    ensures Listed(lines + own, layers + [l])
    ensures Merge(layers + [l]) == Put(Merge(layers), l)
  {
    hide LinesOf, Put;
    var all := layers + [l];
    assert all[..|all| - 1] == layers;
    var lo := LinesOf(Merge(layers), l);
    assert |own| == |multiset(own)| == |multiset(lo)| == |lo|;
    assert (lines + own)[..|lines|] == lines && (lines + own)[|lines|..] == own;
  }

  // ---------- a layer applied name by name ----------

  /** The layer without the names that are still to be visited. */
  function Visited(l: Layer, rest: set<string>): Layer {
    l.(flags := l.flags - rest)
  }

  lemma NothingVisited(flags: Flags, l: Layer)
    ensures Put(flags, Visited(l, l.flags.Keys)) == flags
    ensures LinesOf(flags, Visited(l, l.flags.Keys)) == {}
    ensures Visited(l, {}) == l
  {
    assert l.flags - l.flags.Keys == map[];
    assert l.flags - {} == l.flags;
  }

  lemma EmptyLayer(flags: Flags, l: Layer)
    requires l.flags == map[]
    ensures Put(flags, l) == flags && LinesOf(flags, l) == {}
  {
  }

  lemma VisitOne(flags: Flags, l: Layer, rest: set<string>, name: string)
    requires name in rest && rest <= l.flags.Keys
    ensures Put(flags, Visited(l, rest - {name})) ==
            Put(flags, Visited(l, rest))[name := Sourced(l.flags[name], l.fallback)]
    ensures name in Put(flags, Visited(l, rest)) <==> name in flags
    ensures name in flags ==> Put(flags, Visited(l, rest))[name] == flags[name]
  {
  }

  lemma VisitLines(flags: Flags, l: Layer, rest: set<string>, name: string)
    requires name in rest && rest <= l.flags.Keys
    ensures name !in flags ==> LinesOf(flags, Visited(l, rest - {name})) == LinesOf(flags, Visited(l, rest))
    ensures name in flags ==>
              var o := Override(l.origin, name, flags[name].source);
              && o !in LinesOf(flags, Visited(l, rest))
              && multiset(LinesOf(flags, Visited(l, rest - {name}))) == multiset(LinesOf(flags, Visited(l, rest))) + multiset{o}
  {
    var was, now := Visited(l, rest).flags.Keys * flags.Keys, Visited(l, rest - {name}).flags.Keys * flags.Keys;
    if name in flags {
      assert now == was + {name};
      assert LinesOf(flags, Visited(l, rest - {name})) ==
             LinesOf(flags, Visited(l, rest)) + {Override(l.origin, name, flags[name].source)};
    } else {
      assert now == was;
    }
  }

  /** Top layers that put and list the same are interchangeable. */
  lemma SameTop(layers: seq<Layer>, a: Layer, b: Layer, lines: seq<Override>)
    requires Put(Merge(layers), a) == Put(Merge(layers), b) && LinesOf(Merge(layers), a) == LinesOf(Merge(layers), b)
    ensures Merge(layers + [a]) == Merge(layers + [b])
    ensures Listed(lines, layers + [a]) <==> Listed(lines, layers + [b])
  {
    hide Put, LinesOf;
    assert (layers + [a])[..|layers|] == layers;
    assert (layers + [b])[..|layers|] == layers;
  }

  /** Filling in empty sources beforehand makes no difference. */
  lemma FilledInBefore(flags: Flags, l: Layer, filled: Flags)
    requires filled.Keys == l.flags.Keys && forall n :: n in filled ==> filled[n] == Sourced(l.flags[n], l.fallback)
    ensures Put(flags, l.(flags := filled)) == Put(flags, l)
    ensures LinesOf(flags, l.(flags := filled)) == LinesOf(flags, l)
  {
  }
}

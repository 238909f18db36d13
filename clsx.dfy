/**
 * Class-name concatenation: `toVal` flattens one dynamically typed value
 * into a space-separated class string, and `clsx` does the same for a whole
 * argument list.
 *
 * Both source functions are loops that append to an accumulator; they are
 * modelled as the methods `ToVal` and `Clsx`, each proved equal to the pure
 * reference `Flatten` / `Classes`: "the non-empty contributions, in order,
 * joined with one space".
 */
module Clsx {

  /** A JavaScript value as far as class-name building can tell them apart. */
  datatype Val =
    | Str(s: string)
    | Num(n: int)                          // integral numbers only
    | Arr(elems: seq<Val>)
    | Obj(entries: seq<(string, Val)>)     // own enumerable keys, in for-in order
    | Null
    | Undefined
    | Bool(b: bool)
    | Fn                                   // functions, symbols, ... : truthy, not "object"

  /** JavaScript truthiness. */
  predicate Truthy(v: Val)
  {
    match v
    case Str(s) => s != ""
    case Num(n) => n != 0
    case Null => false
    case Undefined => false
    case Bool(b) => b
    case _ => true
  }

  function DigitChar(d: nat): char
    requires d < 10
  {
    "0123456789"[d]
  }

  /** Decimal rendering of a natural number. */
  function NatToString(n: nat): (r: string)
    ensures r != []
    ensures forall i :: 0 <= i < |r| ==> '0' <= r[i] <= '9'
    decreases n
  {
    if n < 10 then [DigitChar(n)] else NatToString(n / 10) + [DigitChar(n % 10)]
  }

  /** `"" + n` for an integral number. */
  function NumberToString(n: int): (r: string)
    ensures r != ""
    ensures r[0] == '-' <==> n < 0
  {
    if n < 0 then "-" + NatToString(-n) else NatToString(n)
  }

  /** One accumulation step of the source: `str && (str += " "); str += piece`. */
  function Glue(acc: string, piece: string): string
  {
    if acc == "" then piece else acc + " " + piece
  }

  /** Pieces joined with exactly one space between neighbours. */
  function Join(ps: seq<string>): string
  {
    if |ps| == 0 then ""
    else if |ps| == 1 then ps[0]
    else ps[0] + " " + Join(ps[1..])
  }

  /** The pieces that are not the empty string, in order. */
  function NonEmpty(ps: seq<string>): (r: seq<string>)
    ensures |r| <= |ps|
    ensures forall i :: 0 <= i < |r| ==> r[i] != ""
  {
    if ps == [] then []
    else (if ps[0] == "" then [] else [ps[0]]) + NonEmpty(ps[1..])
  }

  /** The pieces after the leading empty ones. */
  function DropLeadingEmpty(ps: seq<string>): (r: seq<string>)
    ensures r == [] || r[0] != ""
  {
    if ps != [] && ps[0] == "" then DropLeadingEmpty(ps[1..]) else ps
  }

  /** The keys whose values are truthy, in key order. */
  function TruthyKeys(entries: seq<(string, Val)>): seq<string>
  {
    if entries == [] then []
    else (if Truthy(entries[0].1) then [entries[0].0] else []) + TruthyKeys(entries[1..])
  }

  /** `toVal(mix)`: what one value flattens to. */
  function Flatten(v: Val): string
    decreases v, 1
  {
    match v
    case Str(s) => s
    case Num(n) => NumberToString(n)
    case Arr(es) => Classes(es)
    // a key is appended whenever its value is truthy, even the key "", so only
    // empty keys before the first non-empty one vanish
    case Obj(entries) => Join(DropLeadingEmpty(TruthyKeys(entries)))
    case _ => ""   // null (typeof "object", no keys), undefined, booleans, functions
  }

  /** What an array element or an argument adds: nothing when it is falsy. */
  function Contribution(v: Val): string
    decreases v, 2
  {
    if Truthy(v) then Flatten(v) else ""
  }

  function Contributions(vs: seq<Val>): seq<string>
    decreases vs, 0
  {
    if vs == [] then [] else [Contribution(vs[0])] + Contributions(vs[1..])
  }

  /** `clsx(...args)`: the non-empty contributions joined with one space. */
  function Classes(args: seq<Val>): string
    decreases args, 3
  {
    Join(NonEmpty(Contributions(args)))
  }

  /** Joining two class strings: a space only when both are non-empty. */
  function SpaceBetween(x: string, y: string): string
  {
    if x == "" then y else if y == "" then x else x + " " + y
  }

  // ---------------------------------------------------------------------
  // The source's loops

  /** `toVal`: string and number pass through, arrays recurse, objects give keys. */
  method ToVal(mix: Val) returns (str: string)
    ensures str == Flatten(mix)
    decreases mix
  {
    str := "";
    match mix {
      case Str(s) =>
        str := str + s;
      case Num(n) =>
        str := str + NumberToString(n);
      case Arr(es) =>
        for k := 0 to |es|
          invariant str == Join(NonEmpty(Contributions(es[..k])))
        {
          ghost var done := NonEmpty(Contributions(es[..k]));
          ContributionsSnoc(es[..k], es[k]);
          assert es[..k + 1] == es[..k] + [es[k]];
          if Truthy(es[k]) {
            var y := ToVal(es[k]);
            assert Contributions(es[..k + 1]) == Contributions(es[..k]) + [y];
            NonEmptySnoc(Contributions(es[..k]), y);
            if y != "" {
              GlueJoin(done, y);
              ghost var before := str;
              if str != "" { str := str + " "; }
              str := str + y;
              assert str == Glue(before, y);
            } else {
              assert NonEmpty(Contributions(es[..k + 1])) == done;
            }
          } else {
            NonEmptySnoc(Contributions(es[..k]), "");
            assert NonEmpty(Contributions(es[..k + 1])) == done;
          }
          assert str == Join(NonEmpty(Contributions(es[..k + 1])));
        }
        assert es[..|es|] == es;
      case Obj(entries) =>
        for k := 0 to |entries|
          invariant str == Join(DropLeadingEmpty(TruthyKeys(entries[..k])))
        {
          TruthyKeysSnoc(entries[..k], entries[k]);
          assert entries[..k + 1] == entries[..k] + [entries[k]];
          if Truthy(entries[k].1) {
            assert TruthyKeys(entries[..k + 1]) == TruthyKeys(entries[..k]) + [entries[k].0];
            DropLeadingEmptySnoc(TruthyKeys(entries[..k]), entries[k].0);
            ghost var before := str;
            if str != "" { str := str + " "; }
            str := str + entries[k].0;
            assert str == Glue(before, entries[k].0);
          } else {
            assert TruthyKeys(entries[..k + 1]) == TruthyKeys(entries[..k]);
          }
          assert str == Join(DropLeadingEmpty(TruthyKeys(entries[..k + 1])));
        }
        assert entries[..|entries|] == entries;
      case Null =>
      case Undefined =>
      case Bool(_) =>
      case Fn =>
    }
  }

  /** `clsx`: a while loop over the arguments, skipping falsy ones and empty flattenings. */
  method Clsx(args: seq<Val>) returns (str: string)
    ensures str == Classes(args)
  {
    var i := 0;
    str := "";
    while i < |args|
      invariant 0 <= i <= |args|
      invariant str == Join(NonEmpty(Contributions(args[..i])))
    {
      ghost var done := NonEmpty(Contributions(args[..i]));
      var tmp := args[i];
      ContributionsSnoc(args[..i], tmp);
      assert args[..i + 1] == args[..i] + [tmp];
      i := i + 1;
      if Truthy(tmp) {
        var x := ToVal(tmp);
        assert Contributions(args[..i]) == Contributions(args[..i - 1]) + [x];
        NonEmptySnoc(Contributions(args[..i - 1]), x);
        if x != "" {
          GlueJoin(done, x);
          ghost var before := str;
          if str != "" { str := str + " "; }
          str := str + x;
          assert str == Glue(before, x);
        } else {
          assert NonEmpty(Contributions(args[..i])) == done;
        }
      } else {
        NonEmptySnoc(Contributions(args[..i - 1]), "");
        assert NonEmpty(Contributions(args[..i])) == done;
      }
      assert str == Join(NonEmpty(Contributions(args[..i])));
    }
    assert args[..|args|] == args;
  }

  // ---------------------------------------------------------------------
  // Lemmas about the reference

  lemma {:induction false} JoinSnoc(ps: seq<string>, p: string)
    requires ps != []
    ensures Join(ps + [p]) == Join(ps) + " " + p
    decreases |ps|
  {
    if |ps| == 1 {
      assert ps + [p] == [ps[0], p];
    } else {
      assert (ps + [p])[1..] == ps[1..] + [p];
      JoinSnoc(ps[1..], p);
    }
  }

  lemma JoinStartsWithFirst(ps: seq<string>)
    requires ps != []
    ensures |Join(ps)| >= |ps[0]| && Join(ps)[..|ps[0]|] == ps[0]
  {
  }

  /** Appending one more piece to a joined list whose first piece is non-empty is one `Glue` step. */
  lemma GlueJoin(ps: seq<string>, p: string)
    requires ps == [] || ps[0] != ""
    ensures Glue(Join(ps), p) == Join(ps + [p])
  {
    if ps != [] {
      JoinStartsWithFirst(ps);
      JoinSnoc(ps, p);
    }
  }

  lemma {:induction false} NonEmptySnoc(ps: seq<string>, p: string)
    ensures NonEmpty(ps + [p]) == NonEmpty(ps) + (if p == "" then [] else [p])
    decreases |ps|
  {
    if ps == [] {
      assert NonEmpty([p]) == (if p == "" then [] else [p]) + NonEmpty([]);
    } else {
      assert (ps + [p])[1..] == ps[1..] + [p];
      NonEmptySnoc(ps[1..], p);
    }
  }

  lemma {:induction false} ContributionsSnoc(vs: seq<Val>, v: Val)
    ensures Contributions(vs + [v]) == Contributions(vs) + [Contribution(v)]
    decreases |vs|
  {
    if vs != [] {
      assert (vs + [v])[1..] == vs[1..] + [v];
      ContributionsSnoc(vs[1..], v);
    }
  }

  lemma {:induction false} TruthyKeysSnoc(entries: seq<(string, Val)>, e: (string, Val))
    ensures TruthyKeys(entries + [e]) == TruthyKeys(entries) + (if Truthy(e.1) then [e.0] else [])
    decreases |entries|
  {
    if entries == [] {
      assert TruthyKeys([e]) == (if Truthy(e.1) then [e.0] else []) + TruthyKeys([]);
    } else {
      var rest := entries[1..];
      var head := if Truthy(entries[0].1) then [entries[0].0] else [];
      var tail := if Truthy(e.1) then [e.0] else [];
      assert (entries + [e])[0] == entries[0];
      assert (entries + [e])[1..] == rest + [e];
      TruthyKeysSnoc(rest, e);
      assert TruthyKeys(entries + [e]) == head + (TruthyKeys(rest) + tail);
      assert TruthyKeys(entries) == head + TruthyKeys(rest);
    }
  }

  lemma {:induction false} DropLeadingEmptySnoc(ks: seq<string>, k: string)
    ensures Join(DropLeadingEmpty(ks + [k])) == Glue(Join(DropLeadingEmpty(ks)), k)
    decreases |ks|
  {
    if ks == [] {
      assert DropLeadingEmpty([k]) == if k == "" then DropLeadingEmpty([]) else [k];
    } else if ks[0] == "" {
      assert (ks + [k])[1..] == ks[1..] + [k];
      DropLeadingEmptySnoc(ks[1..], k);
    } else {
      GlueJoin(ks, k);
    }
  }

  lemma {:induction false} NonEmptyAppend(ps: seq<string>, qs: seq<string>)
    ensures NonEmpty(ps + qs) == NonEmpty(ps) + NonEmpty(qs)
    decreases |ps|
  {
    if ps == [] {
      assert ps + qs == qs;
    } else {
      assert (ps + qs)[0] == ps[0];
      assert (ps + qs)[1..] == ps[1..] + qs;
      NonEmptyAppend(ps[1..], qs);
    }
  }

  lemma {:induction false} ContributionsAppend(a: seq<Val>, b: seq<Val>)
    ensures Contributions(a + b) == Contributions(a) + Contributions(b)
    decreases |a|
  {
    if a == [] {
      assert a + b == b;
    } else {
      assert (a + b)[0] == a[0];
      assert (a + b)[1..] == a[1..] + b;
      ContributionsAppend(a[1..], b);
    }
  }

  /** Joining a concatenation of non-empty pieces puts one space at the seam, if both sides have pieces. */
  lemma {:induction false} JoinAppend(ps: seq<string>, qs: seq<string>)
    requires forall i :: 0 <= i < |ps| ==> ps[i] != ""
    requires forall i :: 0 <= i < |qs| ==> qs[i] != ""
    ensures Join(ps + qs) == SpaceBetween(Join(ps), Join(qs))
    decreases |ps|
  {
    if ps == [] {
      assert ps + qs == qs;
    } else if qs == [] {
      assert ps + qs == ps;
      if Join(ps) == "" { JoinStartsWithFirst(ps); }
    } else {
      JoinStartsWithFirst(ps);
      JoinStartsWithFirst(qs);
      assert (ps + qs)[1..] == ps[1..] + qs;
      JoinAppend(ps[1..], qs);
      if |ps| > 1 { JoinStartsWithFirst(ps[1..]); }
    }
  }

  // ---------------------------------------------------------------------
  // Properties of clsx

  /** The class string of a concatenated argument list: one space at the seam, and only between two non-empty halves. */
  lemma ClassesAppend(a: seq<Val>, b: seq<Val>)
    ensures Classes(a + b) == SpaceBetween(Classes(a), Classes(b))
  {
    ContributionsAppend(a, b);
    NonEmptyAppend(Contributions(a), Contributions(b));
    JoinAppend(NonEmpty(Contributions(a)), NonEmpty(Contributions(b)));
  }

  /** A falsy argument (null, undefined, false, 0, "") changes nothing wherever it stands. */
  lemma FalsyArgumentIgnored(a: seq<Val>, f: Val, b: seq<Val>)
    requires !Truthy(f)
    ensures Classes(a + [f] + b) == Classes(a + b)
  {
    ClassesAppend(a + [f], b);
    ClassesAppend(a, [f]);
    ClassesAppend(a, b);
    assert Classes([f]) == "" by {
      assert Contributions([f]) == [""] + Contributions([]);
    }
  }

  /** An argument whose flattening is empty (e.g. `[]`, `{}`, `true`) changes nothing either. */
  lemma EmptyFlatteningIgnored(a: seq<Val>, v: Val, b: seq<Val>)
    requires Flatten(v) == ""
    ensures Classes(a + [v] + b) == Classes(a + b)
  {
    ClassesAppend(a + [v], b);
    ClassesAppend(a, [v]);
    ClassesAppend(a, b);
    assert Classes([v]) == "" by {
      assert Contributions([v]) == [""] + Contributions([]);
    }
  }

  /** `clsx()` is the empty string. */
  lemma NoArguments()
    ensures Classes([]) == ""
  {
  }

  /** Each truthy argument contributes its own flattening; the result is the join of the non-empty ones. */
  lemma ClassesSnoc(args: seq<Val>, v: Val)
    ensures Classes(args + [v]) == SpaceBetween(Classes(args), Contribution(v))
  {
    ClassesAppend(args, [v]);
    assert Contributions([v]) == [Contribution(v)] + Contributions([]);
    assert NonEmpty([Contribution(v)]) == (if Contribution(v) == "" then [] else [Contribution(v)]) + NonEmpty([]);
  }

  /** Wrapping the argument list in an array changes nothing: arrays flatten recursively. */
  lemma NestedArrayFlattens(args: seq<Val>)
    ensures Classes([Arr(args)]) == Classes(args)
  {
    ClassesSnoc([], Arr(args));
    assert [] + [Arr(args)] == [Arr(args)];
  }

  /** A single non-empty string comes back unchanged. */
  lemma SingleString(s: string)
    requires s != ""
    ensures Classes([Str(s)]) == s
  {
    ClassesSnoc([], Str(s));
    assert [] + [Str(s)] == [Str(s)];
  }

  /** `clsx(clsx(args...)) == clsx(args...)`. */
  lemma Idempotent(args: seq<Val>)
    ensures Classes([Str(Classes(args))]) == Classes(args)
  {
    ClassesSnoc([], Str(Classes(args)));
    assert [] + [Str(Classes(args))] == [Str(Classes(args))];
  }

  /** The first key of a key list whose keys are all non-empty is non-empty. */
  lemma {:induction false} TruthyKeysNoEmpty(entries: seq<(string, Val)>)
    requires forall i :: 0 <= i < |entries| ==> entries[i].0 != ""
    ensures forall i :: 0 <= i < |TruthyKeys(entries)| ==> TruthyKeys(entries)[i] != ""
    decreases |entries|
  {
    if entries != [] {
      TruthyKeysNoEmpty(entries[1..]);
    }
  }

  /** With non-empty key names, an object gives exactly the names of its truthy keys, joined in key order. */
  lemma ObjectGivesTruthyKeys(entries: seq<(string, Val)>)
    requires forall i :: 0 <= i < |entries| ==> entries[i].0 != ""
    ensures Flatten(Obj(entries)) == Join(TruthyKeys(entries))
  {
    TruthyKeysNoEmpty(entries);
  }

  /** The key name, never the value, is what an object contributes. */
  lemma ObjectValuesNotEmitted(key: string, value: string)
    requires key != "" && value != ""
    ensures Flatten(Obj([(key, Str(value))])) == key
  {
    assert TruthyKeys([(key, Str(value))]) == [key] + TruthyKeys([]);
  }

  /** An empty key after a non-empty one still gets its separator: `{a: 1, "": 1, b: 1}` gives "a  b". */
  lemma EmptyKeyKeepsSeparator()
    ensures Flatten(Obj([("a", Num(1)), ("", Num(1)), ("b", Num(1))])) == "a  b"
  {
    var en := [("a", Num(1)), ("", Num(1)), ("b", Num(1))];
    assert TruthyKeys(en[2..]) == ["b"] + TruthyKeys([]);
    assert TruthyKeys(en[1..]) == [""] + TruthyKeys(en[2..]);
    assert TruthyKeys(en) == ["a", "", "b"];
  }

  /** Values that are neither string, number nor object flatten to "". */
  lemma NonClassValuesFlattenEmpty(b: bool)
    ensures Flatten(Bool(b)) == "" && Flatten(Fn) == "" && Flatten(Undefined) == "" && Flatten(Null) == ""
  {
  }

  /** The falsy values are exactly null, undefined, false, 0 and "". */
  lemma FalsyValues(v: Val)
    ensures !Truthy(v) <==> v == Null || v == Undefined || v == Bool(false) || v == Num(0) || v == Str("")
  {
  }
}

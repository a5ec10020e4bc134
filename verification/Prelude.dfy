/** Types and orderings shared by the component models. */
module Prelude {

  datatype Option<+T> = None | Some(value: T)

  datatype Result<+T, +E> = Ok(value: T) | Err(error: E)

  /** A JSON value, as found in event payloads and ERP records. */
  datatype Json =
    | Null
    | Bool(b: bool)
    | Int(n: int)
    | Str(s: string)
    | List(items: seq<Json>)
    | Obj(fields: map<string, Json>)
  {
    /** Python counts True as 1 and False as 0. */
    function Number(): Option<int> {
      match this
      case Bool(b) => Some(if b then 1 else 0)
      case Int(n) => Some(n)
      case _ => None
    }
  }

  /** Python's `==` on JSON values: numbers by value, whatever their type. */
  predicate Same(a: Json, b: Json) {
    match (a, b)
    case (List(s), List(t)) => |s| == |t| && forall i :: 0 <= i < |s| ==> Same(s[i], t[i])
    case (Obj(f), Obj(g)) => f.Keys == g.Keys && forall k :: k in f ==> Same(f[k], g[k])
    case (Null, Null) => true
    case (Str(s), Str(t)) => s == t
    case _ => a.Number().Some? && a.Number() == b.Number()
  }

  lemma {:induction false} SameAsItself(a: Json)
    ensures Same(a, a)
  {
    match a
    case List(s) => forall i | 0 <= i < |s| ensures Same(s[i], s[i]) { SameAsItself(s[i]); }
    case Obj(f) => forall k | k in f ensures Same(f[k], f[k]) { SameAsItself(f[k]); }
    case _ =>
  }

  lemma {:induction false} SameSymmetric(a: Json, b: Json)
    ensures Same(a, b) <==> Same(b, a)
  {
    match (a, b)
    case (List(s), List(t)) => forall i | 0 <= i < |s| && i < |t| ensures Same(s[i], t[i]) <==> Same(t[i], s[i]) { SameSymmetric(s[i], t[i]); }
    case (Obj(f), Obj(g)) => forall k | k in f && k in g ensures Same(f[k], g[k]) <==> Same(g[k], f[k]) { SameSymmetric(f[k], g[k]); }
    case _ =>
  }

  /** With the two lemmas above: equality is an equivalence. */
  lemma {:induction false} SameTransitive(a: Json, b: Json, c: Json)
    requires Same(a, b) && Same(b, c)
    ensures Same(a, c)
  {
    match (a, b, c)
    case (List(s), List(t), List(u)) =>
      forall i | 0 <= i < |s| ensures Same(s[i], u[i]) { SameTransitive(s[i], t[i], u[i]); }
    case (Obj(f), Obj(g), Obj(h)) =>
      forall k | k in f ensures Same(f[k], h[k]) { SameTransitive(f[k], g[k], h[k]); }
    case _ =>
  }

  predicate Scalar(v: Json) { !v.List? && !v.Obj? }

  predicate OneOf(v: Json, b: bool) { v == Bool(b) || v == Int(if b then 1 else 0) }

  /** Among values that hold no others, only True and 1, False and 0 are equal and not the same. */
  lemma SameScalarsIff(a: Json, b: Json)
    requires Scalar(a)
    ensures Same(a, b) <==> a == b || exists x :: OneOf(a, x) && OneOf(b, x)
  {
    if Same(a, b) && a != b {
      var x := a.Number() == Some(1);
      assert OneOf(a, x) && OneOf(b, x);
    }
  }

  /** A flat record: a Python dict with string keys. */
  type Record = map<string, Json>

  /** Python's `==` on records. */
  predicate SameRecord(a: Record, b: Record) { Same(Obj(a), Obj(b)) }

  /** Python's `<` on strings: lexicographic by code point, a proper prefix first. */
  predicate Less(a: string, b: string) {
    if b == [] then false
    else if a == [] then true
    else if a[0] != b[0] then a[0] < b[0]
    else Less(a[1..], b[1..])
  }

  predicate FirstSmaller(a: string, b: string, i: int) {
    0 <= i < |a| && i < |b| && a[i] < b[i] && a[..i] == b[..i]
  }

  lemma SameHead(a: string, b: string, i: nat)
    requires 0 < i <= |a| && i <= |b| && a[..i] == b[..i]
    ensures a[0] == b[0]
  {
    assert a[..i][0] == b[..i][0];
  }

  /** A proper prefix comes first; else the first difference decides. */
  lemma {:induction false} LessIsLexicographic(a: string, b: string)
    ensures Less(a, b) <==> a < b || exists i :: FirstSmaller(a, b, i)
  {
    if a != [] && b != [] {
      var x, y := a[1..], b[1..];
      LessIsLexicographic(x, y);
      if a[0] == b[0] {
        assert a == [a[0]] + x && b == [b[0]] + y;
        if i :| FirstSmaller(x, y, i) {
          assert a[..i + 1] == [a[0]] + x[..i] && b[..i + 1] == [b[0]] + y[..i];
          assert FirstSmaller(a, b, i + 1);
        }
        if i :| FirstSmaller(a, b, i) {
          assert x[..i - 1] == a[..i][1..] && y[..i - 1] == b[..i][1..];
          assert FirstSmaller(x, y, i - 1);
        }
      } else {
        forall i | FirstSmaller(a, b, i) ensures i == 0 { if i > 0 { SameHead(a, b, i); } }
        assert a[..0] == b[..0];
        assert a[0] < b[0] ==> FirstSmaller(a, b, 0);
      }
    }
  }

  lemma {:induction false} LessTotal(a: string, b: string)
    ensures Less(a, b) || Less(b, a) || a == b
    ensures !(Less(a, b) && Less(b, a))
    ensures !Less(a, a)
  {
    if a != [] {
      LessTotal(a[1..], a[1..]);
      if b != [] {
        LessTotal(a[1..], b[1..]);
        if a[0] == b[0] && a[1..] == b[1..] {
          assert a == [a[0]] + a[1..] && b == [b[0]] + b[1..];
        }
      }
    }
  }

  lemma {:induction false} LessTransitive(a: string, b: string, c: string)
    requires Less(a, b) && Less(b, c)
    ensures Less(a, c)
  {
    if a != [] && a[0] == b[0] == c[0] {
      LessTransitive(a[1..], b[1..], c[1..]);
    }
  }

  /** `str.upper` on ASCII letters: the same letter in upper case, anything else as it was. */
  function Upper(s: string): (r: string)
    ensures |r| == |s|
    ensures forall i :: 0 <= i < |s| && 'a' <= s[i] <= 'z' ==> 'A' <= r[i] <= 'Z' && r[i] - 'A' == s[i] - 'a'
    ensures forall i :: 0 <= i < |s| && !('a' <= s[i] <= 'z') ==> r[i] == s[i]
  {
    seq(|s|, i requires 0 <= i < |s| => if 'a' <= s[i] <= 'z' then (s[i] as int - 32) as char else s[i])
  }

  predicate IsLeast(k: string, keys: set<string>) {
    k in keys && forall j :: j in keys ==> j == k || Less(k, j)
  }

  lemma {:induction false} LeastExists(keys: set<string>)
    requires keys != {}
    ensures exists k :: IsLeast(k, keys)
  {
    var k :| k in keys;
    var rest := keys - {k};
    if rest == {} {
      assert keys == {k};
      assert IsLeast(k, keys);
    } else {
      LeastExists(rest);
      var m :| IsLeast(m, rest);
      LessTotal(k, m);
      if Less(k, m) {
        forall j | j in keys ensures j == k || Less(k, j) {
          if j in rest && j != m { LessTransitive(k, m, j); }
        }
        assert IsLeast(k, keys);
      } else {
        assert IsLeast(m, keys);
      }
    }
  }

  ghost predicate StrictlySorted(s: seq<string>) {
    forall i, j :: 0 <= i < j < |s| ==> Less(s[i], s[j])
  }

  function Least(keys: set<string>): (k: string)
    requires keys != {}
    ensures IsLeast(k, keys)
  {
    LeastExists(keys);
    assert forall k, m :: IsLeast(k, keys) && IsLeast(m, keys) ==> k == m by {
      forall k, m | IsLeast(k, keys) && IsLeast(m, keys) ensures k == m { LessTotal(k, m); }
    }
    var k :| k in keys && IsLeast(k, keys);
    k
  }

  lemma SortedCons(k: string, rest: seq<string>, keys: set<string>)
    requires IsLeast(k, keys)
    requires StrictlySorted(rest)
    requires forall j :: j in rest <==> j in keys - {k}
    ensures StrictlySorted([k] + rest)
    ensures forall j :: j in [k] + rest <==> j in keys
  {
    forall i | 0 <= i < |rest| ensures Less(k, rest[i]) {
      assert rest[i] in rest;
    }
  }

  /** Python's `sorted(keys)` for a set of strings. */
  function SortedKeys(keys: set<string>): (s: seq<string>)
    ensures StrictlySorted(s)
    ensures forall k :: k in s <==> k in keys
    ensures |s| == |keys|
  {
    if keys == {} then []
    else
      var k := Least(keys);
      var rest := SortedKeys(keys - {k});
      SortedCons(k, rest, keys);
      [k] + rest
  }

  /** One text is the other with the separator and more behind it. */
  predicate Clash(a: string, c: string, sep: char) {
    a + [sep] <= c || c + [sep] <= a
  }

  predicate Collide(a: string, v: string, c: string, w: string, sep: char) {
    (a, v) != (c, w) && a + [sep] + v == c + [sep] + w
  }

  /** a, with the separator and something behind it, is also c with something behind it. */
  lemma ClashCollides(a: string, c: string, sep: char) returns (v: string)
    requires a + [sep] <= c
    ensures Collide(a, v + [sep], c, "", sep) && c == a + [sep] + v
  {
    v := c[|a| + 1..];
    assert c == a + [sep] + v;
    assert a + [sep] + (v + [sep]) == c + [sep] + "";
  }

  lemma SameLengthCut(a: string, v: string, c: string, w: string, sep: char)
    requires a + [sep] + v == c + [sep] + w && |a| == |c|
    ensures a == c && v == w
  {
    var s, t := a + [sep] + v, c + [sep] + w;
    assert a == s[..|a|] && c == t[..|c|];
    assert v == s[|a| + 1..] && w == t[|c| + 1..];
  }

  lemma ShorterClashes(a: string, v: string, c: string, w: string, sep: char)
    requires Collide(a, v, c, w, sep) && |a| <= |c|
    ensures a + [sep] <= c
  {
    if |a| == |c| {
      SameLengthCut(a, v, c, w, sep);
    } else {
      var s, t := a + [sep] + v, c + [sep] + w;
      assert a + [sep] == s[..|a| + 1] && c == t[..|c|];
      assert s[..|a| + 1] == t[..|c|][..|a| + 1];
    }
  }

  /** Two texts can be continued behind a separator to one and the same text, in two
      different ways, exactly when they clash. */
  lemma CollideIff(a: string, c: string, sep: char)
    ensures (exists v, w :: Collide(a, v, c, w, sep)) <==> Clash(a, c, sep)
  {
    if v, w :| Collide(a, v, c, w, sep) {
      if |a| <= |c| {
        ShorterClashes(a, v, c, w, sep);
      } else {
        assert Collide(c, w, a, v, sep);
        ShorterClashes(c, w, a, v, sep);
      }
    }
    if a + [sep] <= c {
      var v := ClashCollides(a, c, sep);
    } else if c + [sep] <= a {
      var v := ClashCollides(c, a, sep);
      assert Collide(a, "", c, v + [sep], sep);
    }
  }

  lemma NoSeparatorNoClash(a: string, c: string, sep: char)
    requires sep !in a && sep !in c
    ensures !Clash(a, c, sep)
  {
    assert (a + [sep])[|a|] == sep && (c + [sep])[|c|] == sep;
  }

  /** Texts that do not clash, continued to one text, are one text continued in one way. */
  lemma CutWithoutClash(a: string, b: string, c: string, d: string, sep: char)
    requires !Clash(a, c, sep) && a + [sep] + b == c + [sep] + d
    ensures a == c && b == d
  {
    CollideIff(a, c, sep);
    assert !Collide(a, b, c, d, sep);
  }
}

/**
 * The slice of JavaScript semantics the request handler relies on: values produced by
 * `JSON.parse`, property reads, the string conversion of a template-literal substitution,
 * `String.prototype.trim`, `Array.prototype.join("\n")`, object spread, and the view of an
 * object that `JSON.stringify` writes (properties whose value is `undefined` are dropped).
 */
module JsValues {
  import opened Wrappers

  /**
   * A value decoded by `JSON.parse`. A number carries its JavaScript display text
   * (what `Number.prototype.toString` gives); the model never computes with numbers.
   * An object is its list of own properties in insertion order.
   */
  datatype Json =
    | JNull
    | JBool(b: bool)
    | JNum(shown: string)
    | JStr(s: string)
    | JArr(elems: seq<Json>)
    | JObj(fields: seq<(string, Json)>)

  // ---------------------------------------------------------------------------
  // Objects as ordered property lists
  // ---------------------------------------------------------------------------

  /** The property names of an object, in order. */
  function Keys<V>(fields: seq<(string, V)>): (ks: seq<string>)
    ensures |ks| == |fields|
    ensures forall i :: 0 <= i < |fields| ==> ks[i] == fields[i].0
  {
    if fields == [] then [] else [fields[0].0] + Keys(fields[1..])
  }

  /** No property name occurs twice (always true of an object built by `JSON.parse`). */
  predicate DistinctKeys<V>(fields: seq<(string, V)>) {
    forall i, j :: 0 <= i < j < |fields| ==> fields[i].0 != fields[j].0
  }

  /** Reading property `k`; `None` when the object has no such own property. */
  function Lookup<V>(fields: seq<(string, V)>, k: string): (r: Option<V>)
    ensures r.Some? <==> k in Keys(fields)
    ensures r.Some? ==> (k, r.value) in fields
  {
    if fields == [] then None
    else if fields[0].0 == k then Some(fields[0].1)
    else Lookup(fields[1..], k)
  }

  lemma {:induction false} LookupDistinct<V>(fields: seq<(string, V)>, i: nat)
    requires DistinctKeys(fields) && i < |fields|
    ensures Lookup(fields, fields[i].0) == Some(fields[i].1)
  {
    if i > 0 {
      assert fields[0].0 != fields[i].0;
      assert fields[1..][i - 1] == fields[i];
      LookupDistinct(fields[1..], i - 1);
    }
  }

  /**
   * `v.k` for a value that is neither `null` nor `undefined` and a key that is neither an
   * array index, `length`, nor inherited: only an object can have it as an own property.
   */
  function Get(v: Json, k: string): (r: Option<Json>)
    ensures r.Some? <==> v.JObj? && k in Keys(v.fields)
    ensures r.Some? ==> (k, r.value) in v.fields
  {
    match v
    case JObj(fields) => Lookup(fields, k)
    case _ => None
  }

  /** The message of the TypeError thrown by reading property `prop` of `null` (V8 wording). */
  function NullRead(prop: string): string {
    "Cannot read properties of null (reading '" + prop + "')"
  }

  /** The message of the TypeError thrown when an object has no usable `toString`/`valueOf`. */
  const NoPrimitive := "Cannot convert object to primitive value"

  // ---------------------------------------------------------------------------
  // String conversion of a template-literal substitution
  // ---------------------------------------------------------------------------

  /**
   * True when converting `v` to a string throws: a decoded object that has an own property
   * named `toString` hides the callable one it inherits (its own value is not callable, and
   * the inherited `valueOf` returns the object itself), and an array's conversion converts
   * each element.
   */
  predicate Unprintable(v: Json)
    decreases v
  {
    match v
    case JObj(fields) => "toString" in Keys(fields)
    case JArr(elems) => exists i :: 0 <= i < |elems| && Unprintable(elems[i])
    case _ => false
  }

  /**
   * `${v}`: the string a template literal substitutes for a decoded value, or the message
   * of the TypeError the conversion throws.
   */
  function ToText(v: Json): (r: Result<string, string>)
    decreases v
    ensures r.Err? <==> Unprintable(v)
    ensures r.Err? ==> r.error == NoPrimitive
    ensures v.JStr? ==> r == Ok(v.s)
  {
    match v
    case JNull => Ok("null")
    case JBool(b) => Ok(if b then "true" else "false")
    case JNum(shown) => Ok(shown)
    case JStr(s) => Ok(s)
    case JObj(fields) => if "toString" in Keys(fields) then Err(NoPrimitive) else Ok("[object Object]")
    case JArr(elems) => ArrayText(v, 0)
  }

  /**
   * `arr.elems[from..].join(",")`, as `Array.prototype.toString` does it: a `null` element
   * becomes the empty string, any other element is converted with ToText.
   */
  function ArrayText(arr: Json, from: nat): (r: Result<string, string>)
    requires arr.JArr? && from <= |arr.elems|
    decreases arr, |arr.elems| - from
    ensures r.Err? <==> exists i :: from <= i < |arr.elems| && Unprintable(arr.elems[i])
    ensures r.Err? ==> r.error == NoPrimitive
  {
    if from == |arr.elems| then Ok("")
    else
      var e := arr.elems[from];
      var head := if e.JNull? then Ok("") else ToText(e);
      if from + 1 == |arr.elems| then head
      else match head
        case Err(m) => Err(m)
        case Ok(h) =>
          match ArrayText(arr, from + 1)
          case Err(m) => Err(m)
          case Ok(t) => Ok(h + "," + t)
  }

  // ---------------------------------------------------------------------------
  // Decimal rendering of an array index
  // ---------------------------------------------------------------------------

  function Digit(d: nat): char
    requires d < 10
  {
    "0123456789"[d]
  }

  /** `${n}` for an array index `n`: its decimal digits, no sign, no leading zero. */
  function Decimal(n: nat): (s: string)
    ensures |s| > 0
    ensures forall i :: 0 <= i < |s| ==> '0' <= s[i] <= '9'
    ensures |s| > 1 ==> s[0] != '0'
  {
    if n < 10 then [Digit(n)] else Decimal(n / 10) + [Digit(n % 10)]
  }

  /** Reads a string of decimal digits back as a number. */
  function ParseDecimal(s: string): nat
    requires forall i :: 0 <= i < |s| ==> '0' <= s[i] <= '9'
  {
    if s == [] then 0
    else ParseDecimal(s[..|s| - 1]) * 10 + ((s[|s| - 1] as int) - ('0' as int))
  }

  /** Decimal loses nothing: distinct indices get distinct labels. */
  lemma {:induction false} DecimalRoundTrip(n: nat)
    ensures ParseDecimal(Decimal(n)) == n
  {
    if n >= 10 {
      var s := Decimal(n);
      assert s[..|s| - 1] == Decimal(n / 10);
      DecimalRoundTrip(n / 10);
    }
  }

  // ---------------------------------------------------------------------------
  // String.prototype.trim
  // ---------------------------------------------------------------------------

  /** ECMAScript WhiteSpace and LineTerminator code points: the ones `trim` removes. */
  const SpaceChars: set<char> := {
    '\t', '\n', '\U{000B}', '\U{000C}', '\r', ' ',
    '\U{00A0}', '\U{1680}', '\U{2000}', '\U{2001}', '\U{2002}', '\U{2003}',
    '\U{2004}', '\U{2005}', '\U{2006}', '\U{2007}', '\U{2008}', '\U{2009}',
    '\U{200A}', '\U{2028}', '\U{2029}', '\U{202F}', '\U{205F}', '\U{3000}',
    '\U{FEFF}'
  }

  predicate IsSpace(c: char) {
    c in SpaceChars
  }

  /** Removes leading white space. */
  function TrimStart(s: string): (r: string)
    ensures r == [] || !IsSpace(r[0])
  {
    if s != [] && IsSpace(s[0]) then TrimStart(s[1..]) else s
  }

  /** What TrimStart removes is white space, and only from the front. */
  lemma {:induction false} TrimStartRemovesSpace(s: string)
    ensures |TrimStart(s)| <= |s| && TrimStart(s) == s[|s| - |TrimStart(s)|..]
    ensures forall i :: 0 <= i < |s| - |TrimStart(s)| ==> IsSpace(s[i])
  {
    if s != [] && IsSpace(s[0]) {
      TrimStartRemovesSpace(s[1..]);
    }
  }

  /** One leading white-space character before a non-white start is all `TrimStart` removes. */
  lemma TrimStartOne(c: char, s: string)
    requires IsSpace(c) && s != [] && !IsSpace(s[0])
    ensures TrimStart([c] + s) == s
  {
    var t := [c] + s;
    assert t[0] == c && t[1..] == s;
    assert TrimStart(t) == TrimStart(s);
  }

  /** Removes trailing white space. */
  function TrimEnd(s: string): (r: string)
    ensures r == [] || !IsSpace(r[|r| - 1])
  {
    if s != [] && IsSpace(s[|s| - 1]) then TrimEnd(s[..|s| - 1]) else s
  }

  /** Text that already ends in a non-white character is left as it is. */
  lemma TrimEndKeepsTrimmed(s: string)
    requires s != [] && !IsSpace(s[|s| - 1])
    ensures TrimEnd(s) == s
  {
  }

  /** What TrimEnd removes is white space, and only from the back. */
  lemma {:induction false} TrimEndRemovesSpace(s: string)
    ensures TrimEnd(s) <= s
    ensures forall i :: |TrimEnd(s)| <= i < |s| ==> IsSpace(s[i])
  {
    if s != [] && IsSpace(s[|s| - 1]) {
      TrimEndRemovesSpace(s[..|s| - 1]);
    }
  }

  /** `s.trim()`. */
  function Trim(s: string): string {
    TrimEnd(TrimStart(s))
  }

  /** Trailing white space after some non-white character only affects the part it ends. */
  lemma {:induction false} TrimEndKeepsPrefix(a: string, b: string)
    requires exists i :: 0 <= i < |b| && !IsSpace(b[i])
    ensures TrimEnd(a + b) == a + TrimEnd(b)
  {
    var ab := a + b;
    assert ab != [];
    if IsSpace(b[|b| - 1]) {
      assert ab[..|ab| - 1] == a + b[..|b| - 1];
      var i :| 0 <= i < |b| && !IsSpace(b[i]);
      assert i < |b| - 1 && b[..|b| - 1][i] == b[i];
      TrimEndKeepsPrefix(a, b[..|b| - 1]);
    }
  }

  /** Appending only white space changes nothing that `TrimEnd` keeps. */
  lemma {:induction false} TrimEndDropsSpace(a: string, b: string)
    requires forall i :: 0 <= i < |b| ==> IsSpace(b[i])
    ensures TrimEnd(a + b) == TrimEnd(a)
  {
    if b != [] {
      assert (a + b)[..|a + b| - 1] == a + b[..|b| - 1];
      TrimEndDropsSpace(a, b[..|b| - 1]);
    } else {
      assert a + b == a;
    }
  }

  // ---------------------------------------------------------------------------
  // Array.prototype.join("\n") and its inverse
  // ---------------------------------------------------------------------------

  /** `lines.join("\n")`. */
  function JoinLines(lines: seq<string>): string {
    if lines == [] then ""
    else if |lines| == 1 then lines[0]
    else lines[0] + "\n" + JoinLines(lines[1..])
  }

  /** `s.split("\n")`: the reference that states what "one line per entry" means. */
  function SplitLines(s: string): (r: seq<string>)
    ensures |r| >= 1
  {
    if s == [] then [""]
    else
      var rest := SplitLines(s[1..]);
      if s[0] == '\n' then [""] + rest else [[s[0]] + rest[0]] + rest[1..]
  }

  lemma {:induction false} SplitLinesNoBreak(a: string)
    requires '\n' !in a
    ensures SplitLines(a) == [a]
  {
    if a != [] {
      SplitLinesNoBreak(a[1..]);
      assert [a[0]] + a[1..] == a;
    }
  }

  lemma {:induction false} SplitLinesAtBreak(a: string, b: string)
    requires '\n' !in a
    ensures SplitLines(a + "\n" + b) == [a] + SplitLines(b)
  {
    if a == [] {
      assert a + "\n" + b == "\n" + b;
      assert ("\n" + b)[1..] == b;
    } else {
      assert (a + "\n" + b)[1..] == a[1..] + "\n" + b;
      SplitLinesAtBreak(a[1..], b);
      assert [a[0]] + a[1..] == a;
    }
  }

  /** Joining lines that hold no line break and splitting the result gives the lines back. */
  lemma {:induction false} SplitJoinLines(lines: seq<string>)
    requires lines != []
    requires forall i :: 0 <= i < |lines| ==> '\n' !in lines[i]
    ensures SplitLines(JoinLines(lines)) == lines
  {
    if |lines| == 1 {
      SplitLinesNoBreak(lines[0]);
    } else {
      SplitJoinLines(lines[1..]);
      SplitLinesAtBreak(lines[0], JoinLines(lines[1..]));
      assert [lines[0]] + lines[1..] == lines;
    }
  }

  // ---------------------------------------------------------------------------
  // Object spread and JSON.stringify's view of an object
  // ---------------------------------------------------------------------------

  /**
   * `target[k] = v` on an object literal under construction: an existing property keeps its
   * position and takes the new value, a new one is added at the end. `None` is `undefined`.
   */
  function Assign(target: seq<(string, Option<Json>)>, k: string, v: Option<Json>): (r: seq<(string, Option<Json>)>)
    ensures Lookup(r, k) == Some(v)
  {
    if target == [] then [(k, v)]
    else if target[0].0 == k then [(k, v)] + target[1..]
    else [target[0]] + Assign(target[1..], k, v)
  }

  /** Assigning keeps every existing name at its index. */
  lemma {:induction false} AssignKeeps(target: seq<(string, Option<Json>)>, k: string, v: Option<Json>)
    ensures |target| <= |Assign(target, k, v)|
    ensures forall i :: 0 <= i < |target| ==> Assign(target, k, v)[i].0 == target[i].0
  {
    if target != [] {
      var r := Assign(target, k, v);
      if target[0].0 == k {
        assert r == [(k, v)] + target[1..];
      } else {
        var rest := Assign(target[1..], k, v);
        AssignKeeps(target[1..], k, v);
        assert r == [target[0]] + rest;
        forall i | 1 <= i < |target| ensures r[i].0 == target[i].0 {
          assert r[i] == rest[i - 1] && target[i] == target[1..][i - 1];
        }
      }
    }
  }

  /** Assigning one property leaves every other property's value as it was. */
  lemma {:induction false} AssignOther(target: seq<(string, Option<Json>)>, k: string, v: Option<Json>, k': string)
    requires k' != k
    ensures Lookup(Assign(target, k, v), k') == Lookup(target, k')
  {
    if target != [] && target[0].0 != k {
      AssignOther(target[1..], k, v, k');
    }
  }

  /** Assigning never introduces a second property of the same name. */
  lemma {:induction false} AssignDistinct(target: seq<(string, Option<Json>)>, k: string, v: Option<Json>)
    requires DistinctKeys(target)
    ensures DistinctKeys(Assign(target, k, v))
  {
    if target != [] {
      var r := Assign(target, k, v);
      if target[0].0 == k {
        assert r == [(k, v)] + target[1..];
        forall i, j | 0 <= i < j < |r| ensures r[i].0 != r[j].0 {
          assert r[j] == target[j];
          assert i > 0 ==> r[i] == target[i];
        }
      } else {
        var tail, rest := target[1..], Assign(target[1..], k, v);
        assert r == [target[0]] + rest;
        assert DistinctKeys(tail) by {
          forall i, j | 0 <= i < j < |tail| ensures tail[i].0 != tail[j].0 {
            assert tail[i] == target[i + 1] && tail[j] == target[j + 1];
          }
        }
        AssignDistinct(tail, k, v);
        assert target[0].0 !in Keys(tail) by {
          forall j | 0 <= j < |tail| ensures Keys(tail)[j] != target[0].0 {
            assert tail[j] == target[j + 1];
          }
        }
        AssignOther(tail, k, v, target[0].0);
        forall i, j | 0 <= i < j < |r| ensures r[i].0 != r[j].0 {
          assert r[j] == rest[j - 1];
          if i > 0 {
            assert r[i] == rest[i - 1];
          } else {
            assert Keys(rest)[j - 1] == rest[j - 1].0;
          }
        }
      }
    }
  }

  /**
   * `{...target, ...source}`: the properties of `source` copied onto `target` in order.
   * The properties of `target` stay first and in place.
   */
  function Spread(target: seq<(string, Option<Json>)>, source: seq<(string, Json)>): (r: seq<(string, Option<Json>)>)
    ensures |target| <= |r| && forall i :: 0 <= i < |target| ==> r[i].0 == target[i].0
    ensures DistinctKeys(target) ==> DistinctKeys(r)
    decreases |source|
  {
    if source == [] then target
    else
      var t' := Assign(target, source[0].0, Some(source[0].1));
      AssignKeeps(target, source[0].0, Some(source[0].1));
      if DistinctKeys(target) then
        AssignDistinct(target, source[0].0, Some(source[0].1));
        Spread(t', source[1..])
      else Spread(t', source[1..])
  }

  /** After a spread, a property copied from `source` wins; any other keeps its old value. */
  lemma {:induction false} SpreadLookup(target: seq<(string, Option<Json>)>, source: seq<(string, Json)>, k: string)
    requires DistinctKeys(source)
    decreases |source|
    ensures Lookup(Spread(target, source), k) ==
      match Lookup(source, k)
      case Some(v) => Some(Some(v))
      case None => Lookup(target, k)
  {
    if source != [] {
      var t' := Assign(target, source[0].0, Some(source[0].1));
      assert Keys(source) == [source[0].0] + Keys(source[1..]);
      SpreadLookup(t', source[1..], k);
      if k == source[0].0 {
        assert k !in Keys(source[1..]);
      } else {
        AssignOther(target, source[0].0, Some(source[0].1), k);
      }
    }
  }

  /** The properties `JSON.stringify` writes: those whose value is not `undefined`, in order. */
  function Visible(props: seq<(string, Option<Json>)>): (r: seq<(string, Json)>)
    ensures forall i :: 0 <= i < |r| ==> (r[i].0, Some(r[i].1)) in props
  {
    if props == [] then []
    else
      var rest := Visible(props[1..]);
      match props[0].1
      case Some(v) => [(props[0].0, v)] + rest
      case None => rest
  }

  /** In an object with distinct names, a property is written exactly when it is defined. */
  lemma {:induction false} VisibleLookup(props: seq<(string, Option<Json>)>, k: string)
    requires DistinctKeys(props)
    ensures Lookup(Visible(props), k) ==
      var found := Lookup(props, k);
      if found.Some? then found.value else None
  {
    if props != [] {
      assert DistinctKeys(props[1..]) by {
        forall i, j | 0 <= i < j < |props[1..]| ensures props[1..][i].0 != props[1..][j].0 {
          assert props[1..][i] == props[i + 1] && props[1..][j] == props[j + 1];
        }
      }
      VisibleLookup(props[1..], k);
      if props[0].0 == k {
        assert Lookup(props[1..], k).None?;
      }
    }
  }
}

/** JavaScript values and the built-in string operations the program relies on.
    Strings are sequences of Unicode scalar values; numbers are integers. */
module Js {

  datatype Option<T> = None | Some(value: T)

  /** A JavaScript value as far as the program inspects one. A missing
      property reads as `Undefined`; an object is a map from property names. */
  datatype Value =
    | Undefined
    | Null
    | Bool(b: bool)
    | Num(n: int)
    | Str(s: string)
    | Arr(items: seq<Value>)
    | Obj(fields: map<string, Value>)

  /** JavaScript truthiness: `!!v`. */
  predicate Truthy(v: Value)
  {
    match v
    case Undefined => false
    case Null => false
    case Bool(b) => b
    case Num(n) => n != 0
    case Str(s) => s != ""
    case Arr(_) => true
    case Obj(_) => true
  }

  /** `v.name` for a value that is neither null nor undefined: only objects
      carry named properties in this model. */
  function Prop(v: Value, name: string): Value
  {
    if v.Obj? && name in v.fields then v.fields[name] else Undefined
  }

  /** `v[i]`: an array element, a one-character string, or an object property. */
  function Index(v: Value, i: nat): Value
  {
    match v
    case Arr(items) => if i < |items| then items[i] else Undefined
    case Str(s) => if i < |s| then Str([s[i]]) else Undefined
    case Obj(fields) =>
      var key := NatToString(i);
      if key in fields then fields[key] else Undefined
    case _ => Undefined
  }

  function DigitChar(d: nat): char
    requires d < 10
  {
    "0123456789"[d]
  }

  predicate IsDigit(c: char)
  {
    '0' <= c <= '9'
  }

  /** The decimal numeral of `n`, without leading zeros. */
  function NatToString(n: nat): (r: string)
    ensures |r| >= 1
    ensures forall i :: 0 <= i < |r| ==> IsDigit(r[i])
    decreases n
  {
    if n < 10 then [DigitChar(n)] else NatToString(n / 10) + [DigitChar(n % 10)]
  }

  function IntToString(n: int): string
  {
    if n < 0 then "-" + NatToString(-n) else NatToString(n)
  }

  /** `String(v)`, as a template literal `${v}` applies it. */
  function ToString(v: Value): string
    decreases v
  {
    match v
    case Undefined => "undefined"
    case Null => "null"
    case Bool(b) => if b then "true" else "false"
    case Num(n) => IntToString(n)
    case Str(s) => s
    case Arr(items) =>
      // Array.prototype.join(","): null and undefined elements become empty
      Join(seq(|items|, i requires 0 <= i < |items| =>
                 if items[i].Undefined? || items[i].Null? then "" else ToString(items[i])), ',')
    case Obj(_) => "[object Object]"
  }

  /** The outcome of an expression that may throw: its value, or the
      `message` of the error thrown. */
  datatype Outcome<T> = Ok(value: T) | Thrown(message: string)

  /** The message of the TypeError thrown when `expr(...)` is called but
      `expr` is not a function (as the V8 engine words it). */
  function NotAFunction(expr: string): string
  {
    expr + " is not a function"
  }

  /** The message of the TypeError thrown when property `name` is read from
      null or undefined (as the V8 engine words it). */
  function CannotRead(v: Value, name: string): string
    requires v.Undefined? || v.Null?
  {
    "Cannot read properties of " + (if v.Undefined? then "undefined" else "null") + " (reading '" + name + "')"
  }

  /** Calling string method `name` on `receiver`, which the source writes as
      the expression `expr`: the string itself, or the TypeError the call
      throws on any other value. */
  function AsString(receiver: Value, expr: string, name: string): (r: Outcome<string>)
    ensures r.Ok? <==> receiver.Str?
    ensures r.Ok? ==> r.value == receiver.s
  {
    if receiver.Str? then Ok(receiver.s)
    else if receiver.Undefined? || receiver.Null? then Thrown(CannotRead(receiver, name))
    else Thrown(NotAFunction(expr + "." + name))
  }

  // ---------------------------------------------------------------------
  // Characters

  /** The four ECMAScript line terminators: what `.` does not match and
      where `^` and `$` match in a multiline regular expression. */
  predicate IsLineTerminator(c: char)
  {
    c == '\n' || c == '\r' || c == '\U{2028}' || c == '\U{2029}'
  }

  /** ECMAScript WhiteSpace and LineTerminator: the class `\s` and what
      `String.prototype.trim` removes. */
  predicate IsSpace(c: char)
  {
    || IsLineTerminator(c)
    || c == '\t' || c == '\U{B}' || c == '\U{C}' || c == ' '
    || c == '\U{A0}' || c == '\U{1680}' || ('\U{2000}' <= c <= '\U{200A}')
    || c == '\U{202F}' || c == '\U{205F}' || c == '\U{3000}' || c == '\U{FEFF}'
  }

  function ToLowerChar(c: char): char
  {
    if 'A' <= c <= 'Z' then (c as int + 32) as char else c
  }

  function ToUpperChar(c: char): char
  {
    if 'a' <= c <= 'z' then (c as int - 32) as char else c
  }

  /** `s.toLowerCase()`, on the ASCII letters. */
  function ToLower(s: string): (r: string)
    ensures |r| == |s|
    ensures forall i :: 0 <= i < |s| ==> r[i] == ToLowerChar(s[i])
  {
    seq(|s|, i requires 0 <= i < |s| => ToLowerChar(s[i]))
  }

  // ---------------------------------------------------------------------
  // Strings

  predicate StartsWith(s: string, prefix: string)
  {
    |prefix| <= |s| && s[..|prefix|] == prefix
  }

  /** `parts.join(sep)`. */
  function Join(parts: seq<string>, sep: char): string
    decreases |parts|
  {
    if |parts| == 0 then ""
    else if |parts| == 1 then parts[0]
    else parts[0] + [sep] + Join(parts[1..], sep)
  }

  lemma Assoc(a: string, b: string, c: string)
    ensures a + b + c == a + (b + c)
  {
  }

  lemma TakeDrop(s: string, i: nat)
    requires i <= |s|
    ensures s[..i] + s[i..] == s
  {
  }

  lemma Around(s: string, j: nat)
    requires j < |s|
    ensures s[..j] + [s[j]] + s[j + 1..] == s
  {
  }

  /** The strings `f` gives the elements of `ts`, concatenated in order. */
  function Concat<T>(ts: seq<T>, f: T -> string): string
    decreases |ts|
  {
    if |ts| == 0 then "" else Concat(ts[..|ts| - 1], f) + f(ts[|ts| - 1])
  }

  lemma {:induction false} ConcatAppend<T>(a: seq<T>, b: seq<T>, f: T -> string)
    ensures Concat(a + b, f) == Concat(a, f) + Concat(b, f)
    decreases |b|
  {
    if |b| == 0 {
      assert a + b == a;
    } else {
      var c := a + b;
      var b' := b[..|b| - 1];
      assert c[..|c| - 1] == a + b';
      assert c[|c| - 1] == b[|b| - 1];
      ConcatAppend(a, b', f);
    }
  }

  lemma ConcatOne<T>(t: T, f: T -> string)
    ensures Concat([t], f) == f(t)
  {
    assert [t][..0] == [];
    assert Concat([t], f) == Concat([t][..0], f) + f(t);
  }

  /** `s.split(sep)` for a one-character separator. */
  function Split(s: string, sep: char): (parts: seq<string>)
    ensures |parts| >= 1
    decreases |s|
  {
    if |s| == 0 then [""]
    else
      var rest := Split(s[1..], sep);
      if s[0] == sep then [""] + rest else [[s[0]] + rest[0]] + rest[1..]
  }

  /** Number of occurrences of `c` in `s`. */
  function Count(s: string, c: char): nat
    decreases |s|
  {
    if |s| == 0 then 0 else (if s[0] == c then 1 else 0) + Count(s[1..], c)
  }

  lemma {:induction false} SplitJoin(s: string, sep: char)
    ensures Join(Split(s, sep), sep) == s
    decreases |s|
  {
    if |s| > 0 {
      SplitJoin(s[1..], sep);
      var rest := Split(s[1..], sep);
      if s[0] == sep {
        assert Split(s, sep) == [""] + rest;
        assert ([""] + rest)[1..] == rest;
      } else {
        var parts := Split(s, sep);
        assert parts[1..] == rest[1..];
        if |rest| > 1 {
          assert rest == [rest[0]] + rest[1..];
          assert Join(rest, sep) == rest[0] + [sep] + Join(rest[1..], sep);
        }
      }
    }
  }

  lemma {:induction false} SplitPartsFree(s: string, sep: char)
    ensures forall k :: 0 <= k < |Split(s, sep)| ==> sep !in Split(s, sep)[k]
    decreases |s|
  {
    if |s| > 0 {
      SplitPartsFree(s[1..], sep);
      var rest := Split(s[1..], sep);
      if s[0] != sep {
        var parts := Split(s, sep);
        forall k | 0 <= k < |parts| ensures sep !in parts[k] {
          if k == 0 {
            assert sep !in rest[0];
            assert parts[0] == [s[0]] + rest[0];
          } else {
            assert parts[k] == rest[k];
          }
        }
      }
    }
  }

  /** `s.split(sep)` has one more part than `s` has separators. */
  lemma {:induction false} SplitLength(s: string, sep: char)
    ensures |Split(s, sep)| == Count(s, sep) + 1
    decreases |s|
  {
    if |s| > 0 {
      SplitLength(s[1..], sep);
    }
  }

  function TrimStart(s: string): string
    decreases |s|
  {
    if |s| > 0 && IsSpace(s[0]) then TrimStart(s[1..]) else s
  }

  function TrimEnd(s: string): string
    decreases |s|
  {
    if |s| > 0 && IsSpace(s[|s| - 1]) then TrimEnd(s[..|s| - 1]) else s
  }

  /** `s.trim()`. */
  function Trim(s: string): string
  {
    TrimEnd(TrimStart(s))
  }

  predicate AllSpace(s: string)
  {
    forall i :: 0 <= i < |s| ==> IsSpace(s[i])
  }

  lemma {:induction false} TrimStartBlank(s: string)
    ensures TrimStart(s) == "" <==> AllSpace(s)
    decreases |s|
  {
    if |s| > 0 && IsSpace(s[0]) {
      TrimStartBlank(s[1..]);
      assert AllSpace(s) <==> AllSpace(s[1..]) by {
        if AllSpace(s[1..]) {
          forall i | 0 <= i < |s| ensures IsSpace(s[i]) {
            if i > 0 { assert s[i] == s[1..][i - 1]; }
          }
        }
      }
    }
  }

  lemma {:induction false} TrimEndKeepsNonBlank(s: string)
    requires TrimEnd(s) == ""
    ensures AllSpace(s)
    decreases |s|
  {
    if |s| > 0 {
      TrimEndKeepsNonBlank(s[..|s| - 1]);
      assert forall i :: 0 <= i < |s| - 1 ==> s[i] == s[..|s| - 1][i];
    }
  }

  lemma {:induction false} TrimEndOfBlank(s: string)
    requires AllSpace(s)
    ensures TrimEnd(s) == ""
    decreases |s|
  {
    if |s| > 0 {
      assert AllSpace(s[..|s| - 1]);
      TrimEndOfBlank(s[..|s| - 1]);
    }
  }

  lemma {:induction false} TrimStartBlankRest(s: string)
    requires AllSpace(TrimStart(s))
    ensures AllSpace(s)
    decreases |s|
  {
    if |s| > 0 && IsSpace(s[0]) {
      TrimStartBlankRest(s[1..]);
      forall i | 0 <= i < |s| ensures IsSpace(s[i]) {
        if i > 0 { assert s[i] == s[1..][i - 1]; }
      }
    }
  }

  /** `s.trim()` is empty exactly when every character of `s` is white space. */
  lemma TrimBlank(s: string)
    ensures Trim(s) == "" <==> AllSpace(s)
  {
    TrimStartBlank(s);
    if Trim(s) == "" {
      TrimEndKeepsNonBlank(TrimStart(s));
      TrimStartBlankRest(s);
    } else if AllSpace(s) {
      assert TrimStart(s) == "";
    }
  }

  /** `s.replace(/\s/g, "")`. */
  function RemoveSpace(s: string): (r: string)
    ensures |r| <= |s|
    ensures forall i :: 0 <= i < |r| ==> !IsSpace(r[i])
    ensures AllSpace(s) ==> r == ""
    decreases |s|
  {
    if |s| == 0 then "" else (if IsSpace(s[0]) then "" else [s[0]]) + RemoveSpace(s[1..])
  }

  /** Removing white space works piece by piece: together with the
      contract above, exactly the white-space characters go and the others
      stay in order. */
  lemma {:induction false} RemoveSpaceAppend(a: string, b: string)
    ensures RemoveSpace(a + b) == RemoveSpace(a) + RemoveSpace(b)
    decreases |a|
  {
    if |a| > 0 {
      var x, t := a[0], a[1..];
      assert a == [x] + t && a + b == [x] + (t + b);
      RemoveSpaceAppend(t, b);
      RemoveSpaceCons(x, t + b);
      RemoveSpaceCons(x, t);
      JoinStep(RemoveSpace(a + b), RemoveSpace(a), if IsSpace(x) then "" else [x],
               RemoveSpace(t + b), RemoveSpace(t), RemoveSpace(b));
    } else {
      assert a + b == b;
    }
  }

  /** Re-associates the two halves of one induction step. */
  lemma JoinStep<T>(whole: seq<T>, front: seq<T>, head: seq<T>, tails: seq<T>, tail: seq<T>, back: seq<T>)
    requires whole == head + tails && front == head + tail && tails == tail + back
    ensures whole == front + back
  {
  }

  /** Text without white space is left as it is. */
  lemma {:induction false} RemoveSpaceKeeps(s: string)
    requires forall i :: 0 <= i < |s| ==> !IsSpace(s[i])
    ensures RemoveSpace(s) == s
    decreases |s|
  {
    if |s| > 0 {
      RemoveSpaceKeeps(s[1..]);
      assert [s[0]] + s[1..] == s;
    }
  }

  lemma RemoveSpaceCons(x: char, t: string)
    ensures RemoveSpace([x] + t) == (if IsSpace(x) then "" else [x]) + RemoveSpace(t)
  {
    assert ([x] + t)[1..] == t;
  }
}

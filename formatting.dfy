/**
 * The part of Python's `str.format(**payload)` that navmenu relies on:
 * `{key}` fields are replaced by the payload entry of that name, `{{` and
 * `}}` stand for single braces, and a missing key or a stray brace is an
 * error. Also ASCII lower-casing, used for alias look-up.
 */
module Formatting {
  import opened Wrappers

  /** A request payload: the keyword arguments given to `str.format`,
      each value already in its string form. */
  type Payload = map<string, string>

  datatype FormatError = MissingKey(key: string) | UnmatchedBrace

  /** The payload a `None` request payload stands for where the source writes `payload = {}`. */
  function OrEmpty(payload: Option<Payload>): (p: Payload)
    ensures payload.Some? ==> p == payload.value
    ensures payload.None? ==> p == map[]
  {
    if payload.Some? then payload.value else map[]
  }

  function Prepend(prefix: string, r: Result<string, FormatError>): Result<string, FormatError> {
    if r.Success? then Success(prefix + r.value) else r
  }

  /** Position of the first '}' in s at or after `from`. */
  function CloseBrace(s: string, from: nat): (r: Option<nat>)
    requires from <= |s|
    ensures r.Some? ==> from <= r.value < |s| && s[r.value] == '}'
    ensures r.Some? ==> forall k :: from <= k < r.value ==> s[k] != '}'
    ensures r.None? ==> forall k :: from <= k < |s| ==> s[k] != '}'
    decreases |s| - from
  {
    if from == |s| then None
    else if s[from] == '}' then Some(from)
    else CloseBrace(s, from + 1)
  }

  /** `template.format(**payload)`, restricted to plain named fields. */
  function Format(template: string, payload: Payload): (r: Result<string, FormatError>)
    ensures r.Failure? && r.error.MissingKey? ==> r.error.key !in payload
    decreases |template|
  {
    if template == [] then Success([])
    else if template[0] == '{' then
      if |template| > 1 && template[1] == '{' then Prepend("{", Format(template[2..], payload))
      else
        match CloseBrace(template, 1)
        case None => Failure(UnmatchedBrace)
        case Some(j) =>
          var key := template[1..j];
          if '{' in key then Failure(UnmatchedBrace)
          else if key in payload then Prepend(payload[key], Format(template[j + 1..], payload))
          else Failure(MissingKey(key))
    else if template[0] == '}' then
      if |template| > 1 && template[1] == '}' then Prepend("}", Format(template[2..], payload))
      else Failure(UnmatchedBrace)
    else Prepend([template[0]], Format(template[1..], payload))
  }

  predicate Plain(s: string) {
    '{' !in s && '}' !in s
  }

  /** Text without braces is left as it is, whatever the payload. */
  lemma {:induction false} PlainFormatsToItself(t: string, payload: Payload)
    requires Plain(t)
    ensures Format(t, payload) == Success(t)
  {
    if t != [] {
      assert t[0] in t;
      assert Plain(t[1..]) by {
        forall c | c in t[1..] ensures c in t {
        }
      }
      PlainFormatsToItself(t[1..], payload);
      assert [t[0]] + t[1..] == t;
    }
  }

  /** A field between two plain texts is replaced by the payload value of its key. */
  lemma FieldIsSubstituted(before: string, key: string, after: string, payload: Payload)
    requires Plain(before) && Plain(key) && Plain(after)
    requires key in payload
    ensures Format(before + "{" + key + "}" + after, payload) == Success(before + payload[key] + after)
  {
    Associative(before, "{" + key + "}", after);
    Associative(before, payload[key], after);
    FieldBetween(before, key, after, before + "{" + key + "}" + after, before + payload[key] + after, payload);
  }

  lemma Associative<T>(a: seq<T>, b: seq<T>, c: seq<T>)
    ensures a + b + c == a + (b + c)
  {
  }

  /** `FieldIsSubstituted` with the template and the output named. */
  lemma FieldBetween(before: string, key: string, after: string, t: string, w: string, payload: Payload)
    requires Plain(before) && Plain(key) && Plain(after)
    requires key in payload
    requires t == before + ("{" + key + "}" + after) && w == before + (payload[key] + after)
    ensures Format(t, payload) == Success(w)
  {
    FieldAtHead(key, after, payload);
    PlainFormatsToItself(after, payload);
    PlainPrefix(before, "{" + key + "}" + after, payload);
  }

  /** Text without braces in front of a template is copied to the output. */
  lemma {:induction false} PlainPrefix(u: string, v: string, payload: Payload)
    requires Plain(u)
    ensures Format(u + v, payload) == Prepend(u, Format(v, payload))
    decreases |u|
  {
    if u == [] {
      assert u + v == v;
      var f := Format(v, payload);
      if f.Success? {
        assert u + f.value == f.value;
      }
    } else {
      assert u[0] in u;
      assert Plain(u[1..]) by {
        forall c | c in u[1..] ensures c in u {
        }
      }
      assert u + v == [u[0]] + (u[1..] + v);
      PlainHead(u[0], u[1..] + v, payload);
      PlainPrefix(u[1..], v, payload);
      var f := Format(v, payload);
      if f.Success? {
        assert [u[0]] + (u[1..] + f.value) == u + f.value;
      }
    }
  }

  /** A character other than a brace is copied to the output. */
  lemma PlainHead(c: char, rest: string, payload: Payload)
    requires c != '{' && c != '}'
    ensures Format([c] + rest, payload) == Prepend([c], Format(rest, payload))
  {
    var t := [c] + rest;
    assert t[0] == c && t[1..] == rest;
  }

  /** A template opening with a field: the key runs up to the first closing brace. */
  lemma FieldAtHead(key: string, after: string, payload: Payload)
    requires Plain(key)
    ensures Format("{" + key + "}" + after, payload)
         == if key in payload then Prepend(payload[key], Format(after, payload)) else Failure(MissingKey(key))
  {
    var t := "{" + key + "}" + after;
    assert |t| > 1 && t[1] != '{' by {
      if key == [] { assert t[1] == '}'; } else { assert t[1] == key[0]; assert key[0] in key; }
    }
    var j := 1 + |key|;
    assert t[j] == '}';
    forall k | 1 <= k < j ensures t[k] != '}' {
      assert t[k] == key[k - 1];
      assert key[k - 1] in key;
    }
    CloseBraceFinds(t, 1, j);
    assert t[1..j] == key;
    assert t[j + 1..] == after;
  }

  lemma CloseBraceFinds(s: string, from: nat, j: nat)
    requires from <= j < |s| && s[j] == '}'
    requires forall k :: from <= k < j ==> s[k] != '}'
    ensures CloseBrace(s, from) == Some(j)
    decreases j - from
  {
    if from < j {
      CloseBraceFinds(s, from + 1, j);
    }
  }

  /** A field whose key the payload lacks is an error naming that key. */
  lemma MissingFieldFails(before: string, key: string, after: string, payload: Payload)
    requires Plain(before) && Plain(key)
    requires key !in payload
    ensures Format(before + "{" + key + "}" + after, payload) == Failure(MissingKey(key))
  {
    var rest := "{" + key + "}" + after;
    assert before + "{" + key + "}" + after == before + rest;
    PlainPrefix(before, rest, payload);
    FieldAtHead(key, after, payload);
  }

  /** `{{` stands for a single `{`. */
  lemma EscapedOpenBrace(v: string, payload: Payload)
    ensures Format("{{" + v, payload) == Prepend("{", Format(v, payload))
  {
    var t := "{{" + v;
    assert t[0] == '{' && t[1] == '{' && t[2..] == v;
  }

  /** `}}` stands for a single `}`. */
  lemma EscapedCloseBrace(v: string, payload: Payload)
    ensures Format("}}" + v, payload) == Prepend("}", Format(v, payload))
  {
    var t := "}}" + v;
    assert t[0] == '}' && t[1] == '}' && t[2..] == v;
  }

  /** A `}` that is not doubled is an error. */
  lemma StrayCloseBraceFails(v: string, payload: Payload)
    requires v == [] || v[0] != '}'
    ensures Format("}" + v, payload) == Failure(UnmatchedBrace)
  {
    var t := "}" + v;
    assert t[0] == '}';
    assert |t| > 1 ==> t[1] == v[0];
  }

  /** A `{` that is neither doubled nor closed is an error. */
  lemma UnclosedFieldFails(v: string, payload: Payload)
    requires '}' !in v
    requires v == [] || v[0] != '{'
    ensures Format("{" + v, payload) == Failure(UnmatchedBrace)
  {
    var t := "{" + v;
    assert t[0] == '{';
    assert |t| > 1 ==> t[1] == v[0];
    forall k | 1 <= k < |t| ensures t[k] != '}' {
      assert t[k] == v[k - 1];
    }
  }

  function LowerChar(c: char): char {
    if 'A' <= c <= 'Z' then (c as int + 32) as char else c
  }

  /** `s.lower()` on ASCII letters. */
  function Lower(s: string): (r: string)
    ensures |r| == |s|
    ensures forall i :: 0 <= i < |s| ==> r[i] == LowerChar(s[i])
  {
    seq(|s|, i requires 0 <= i < |s| => LowerChar(s[i]))
  }

  /** A lower-cased string holds no upper-case ASCII letter, so a string that holds one
      is never the lower-cased form of anything. */
  lemma LowerHasNoCapitals(s: string, t: string, i: nat)
    requires i < |t| && 'A' <= t[i] <= 'Z'
    ensures Lower(s) != t
  {
  }
}

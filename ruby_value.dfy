/**
 * The fragment of Ruby's value semantics that the `json_feed_meta` tag relies on:
 * the values a Jekyll site configuration (parsed YAML) can hold, Ruby truthiness,
 * `Hash#[]`, `String#[]` with a String argument, `Hash#keep_if` with a truthiness
 * block, and the `to_s` conversion that string interpolation applies.
 */
module RubyValue {
  import opened Wrappers

  /** A configuration value. A YAML mapping becomes a Hash (its String-keyed entries). */
  datatype Value =
    | Nil
    | False
    | True
    | Int(i: int)
    | Str(s: string)
    | List(items: seq<Value>)
    | Hash(entries: map<string, Value>)

  /** The exceptions `receiver[key]` can raise for a String key. */
  datatype RubyError =
    | NoMethodError   // nil, true and false have no `[]` method
    | TypeError       // Integer#[] and Array#[] cannot convert a String into an Integer

  /** Ruby truthiness: only nil and false are falsy. */
  predicate Truthy(v: Value) {
    !v.Nil? && !v.False?
  }

  /** `hash[key]` on a Hash without a default: a missing key reads as nil. */
  function Lookup(h: map<string, Value>, key: string): Value {
    if key in h then h[key] else Nil
  }

  predicate IsPrefix(t: string, s: string) {
    |t| <= |s| && s[..|t|] == t
  }

  /** `s.include?(t)`: t occurs in s at some position. */
  predicate Includes(s: string, t: string)
    decreases |s|
  {
    IsPrefix(t, s) || (|s| > 0 && Includes(s[1..], t))
  }

  /** t occurs in s starting at position i. */
  predicate OccursAt(s: string, t: string, i: int) {
    0 <= i <= |s| - |t| && s[i..i + |t|] == t
  }

  lemma {:induction false} IncludesAt(s: string, t: string)
    ensures Includes(s, t) <==> exists i :: OccursAt(s, t, i)
    decreases |s|
  {
    if IsPrefix(t, s) {
      assert OccursAt(s, t, 0);
    } else if |s| > 0 {
      IncludesAt(s[1..], t);
      if Includes(s[1..], t) {
        var i :| OccursAt(s[1..], t, i);
        assert s[i + 1..i + 1 + |t|] == s[1..][i..i + |t|];
        assert OccursAt(s, t, i + 1);
      }
      if exists i :: OccursAt(s, t, i) {
        var i :| OccursAt(s, t, i);
        assert i != 0;
        assert s[1..][i - 1..i - 1 + |t|] == s[i..i + |t|];
        assert OccursAt(s[1..], t, i - 1);
      }
    }
  }

  /**
   * `receiver[key]` for a String key: a Hash looks the key up, a String returns
   * a copy of the key when it contains it (and nil otherwise), everything else raises.
   */
  function Index(receiver: Value, key: string): (r: Result<Value, RubyError>)
    ensures r.Ok? <==> receiver.Hash? || receiver.Str?
    ensures receiver.Hash? ==> r == Ok(Lookup(receiver.entries, key))
    ensures receiver.Str? ==> r.Ok? && (r.value == Str(key) || r.value == Nil)
    ensures receiver.Str? ==> (Truthy(r.value) <==> exists i :: OccursAt(receiver.s, key, i))
    ensures receiver.Int? || receiver.List? ==> r == Err(TypeError)
    ensures !Truthy(receiver) || receiver.True? ==> r == Err(NoMethodError)
  {
    match receiver
    case Hash(h) => Ok(Lookup(h, key))
    case Str(s) =>
      IncludesAt(s, key);
      Ok(if Includes(s, key) then Str(key) else Nil)
    case Int(_) => Err(TypeError)
    case List(_) => Err(TypeError)
    case _ => Err(NoMethodError)
  }

  /**
   * `hash.keep_if { |_, v| v }` on an insertion-ordered Hash, given as its
   * sequence of entries: the entries whose value is truthy, in their order.
   */
  function KeepIfTruthy<K(==,!new)>(entries: seq<(K, Value)>): (r: seq<(K, Value)>)
    ensures |r| <= |entries|
    ensures forall i :: 0 <= i < |r| ==> Truthy(r[i].1)
  {
    if entries == [] then []
    else (if Truthy(entries[0].1) then [entries[0]] else []) + KeepIfTruthy(entries[1..])
  }

  /** An entry is kept exactly when it is present with a truthy value. */
  lemma {:induction false} KeepIfTruthyMembers<K(!new)>(entries: seq<(K, Value)>, e: (K, Value))
    ensures e in KeepIfTruthy(entries) <==> e in entries && Truthy(e.1)
  {
    if entries != [] {
      KeepIfTruthyMembers(entries[1..], e);
      assert entries == [entries[0]] + entries[1..];
    }
  }

  /** Entries that are all truthy are kept as they are. */
  lemma {:induction false} KeepIfTruthyAllTruthy<K(!new)>(entries: seq<(K, Value)>)
    requires forall i :: 0 <= i < |entries| ==> Truthy(entries[i].1)
    ensures KeepIfTruthy(entries) == entries
  {
    if entries != [] {
      KeepIfTruthyAllTruthy(entries[1..]);
      assert entries == [entries[0]] + entries[1..];
    }
  }

  /** Filtering keeps the relative order of entries: it distributes over concatenation. */
  lemma {:induction false} KeepIfTruthyAppend<K(!new)>(a: seq<(K, Value)>, b: seq<(K, Value)>)
    ensures KeepIfTruthy(a + b) == KeepIfTruthy(a) + KeepIfTruthy(b)
  {
    if a == [] {
      assert a + b == b;
    } else {
      var head := if Truthy(a[0].1) then [a[0]] else [];
      assert (a + b)[0] == a[0];
      assert (a + b)[1..] == a[1..] + b;
      KeepIfTruthyAppend(a[1..], b);
      calc {
        KeepIfTruthy(a + b);
        head + KeepIfTruthy(a[1..] + b);
        head + (KeepIfTruthy(a[1..]) + KeepIfTruthy(b));
        (head + KeepIfTruthy(a[1..])) + KeepIfTruthy(b);
        KeepIfTruthy(a) + KeepIfTruthy(b);
      }
    }
  }

  /** A second `keep_if` with the same block changes nothing. */
  lemma KeepIfTruthyIdempotent<K(!new)>(entries: seq<(K, Value)>)
    ensures KeepIfTruthy(KeepIfTruthy(entries)) == KeepIfTruthy(entries)
  {
    KeepIfTruthyAllTruthy(KeepIfTruthy(entries));
  }

  function DigitChar(d: nat): char
    requires d < 10
  {
    ('0' as int + d) as char
  }

  function DigitValue(c: char): int {
    c as int - '0' as int
  }

  /** The number a string of decimal digits denotes, most significant first. */
  function DecimalValue(s: string): int {
    if s == [] then 0 else DecimalValue(s[..|s| - 1]) * 10 + DigitValue(s[|s| - 1])
  }

  /** The decimal digits of n, most significant first. */
  function Digits(n: nat): (r: string)
    ensures |r| >= 1
    ensures forall c :: c in r ==> '0' <= c <= '9'
  {
    if n < 10 then [DigitChar(n)] else Digits(n / 10) + [DigitChar(n % 10)]
  }

  /** The digits of n denote n, and only 0 is written with a leading '0'. */
  lemma {:induction false} DigitsDenote(n: nat)
    ensures DecimalValue(Digits(n)) == n
    ensures Digits(n)[0] == '0' <==> n == 0
  {
    var r := Digits(n);
    if n < 10 {
      assert r[..|r| - 1] == [];
    } else {
      DigitsDenote(n / 10);
      assert r[..|r| - 1] == Digits(n / 10);
      assert r[0] == Digits(n / 10)[0];
    }
  }

  /**
   * `v.to_s`, the conversion `"#{v}"` applies. Array#to_s and Hash#to_s are
   * Ruby's `inspect`, which this model takes as the parameter `inspect`.
   */
  function ToS(v: Value, inspect: Value -> string): (r: string)
    ensures v.Str? ==> r == v.s
    ensures v.Nil? ==> r == ""
    ensures v.True? ==> r == "true"
    ensures v.False? ==> r == "false"
    ensures v.Int? ==> |r| >= 1
    ensures v.List? || v.Hash? ==> r == inspect(v)
    ensures !v.Str? && !v.List? && !v.Hash? ==> '"' !in r
  {
    match v
    case Nil => ""
    case False => "false"
    case True => "true"
    case Int(i) => if i < 0 then "-" + Digits(-i) else Digits(i)
    case Str(s) => s
    case List(_) => inspect(v)
    case Hash(_) => inspect(v)
  }

  /**
   * An Integer interpolates as a '-' exactly when it is negative, followed by
   * the decimal digits of its magnitude, with no leading zero.
   */
  lemma ToSInt(i: int, inspect: Value -> string)
    ensures var r := ToS(Int(i), inspect);
      |r| >= 1 && (r[0] == '-' <==> i < 0) &&
      var d := if i < 0 then r[1..] else r;
      |d| >= 1 && (forall c :: c in d ==> '0' <= c <= '9') &&
      DecimalValue(d) == (if i < 0 then -i else i) && (d[0] == '0' <==> i == 0)
  {
    var r := ToS(Int(i), inspect);
    if i < 0 {
      DigitsDenote(-i);
      assert r[1..] == Digits(-i);
    } else {
      DigitsDenote(i);
      assert r[0] in Digits(i);
    }
  }
}

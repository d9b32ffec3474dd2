/**
 Redaction of personal data in audit details
 (apps/server/src/modules/audit/audit.service.ts:44-87).
 */
module Redaction {
  import opened Common
  import opened JsText

  /** Any value that can be stored as details; an object is its entries in Object.entries order. */
  datatype Json =
    | Null
    | Undefined
    | Date(ms: int)
    | Bool(b: bool)
    | Num(n: real)
    | Str(s: string)
    | Arr(items: seq<Json>)
    | Obj(entries: seq<(string, Json)>)

  type Entries = seq<(string, Json)>

  const REDACTED := Str("[REDACTED]")

  const PII_KEY_SUBSTRINGS := ["email", "password", "token", "secret", "authorization", "cookie", "ssn",
                               "creditcard", "cardnumber"]

  function Compact(key: string): string {
    if key == "" then ""
    else (if key[0] in {'_', '-'} || IsSpace(key[0]) then "" else [ToLower(key[0])]) + Compact(key[1..])
  }

  predicate KeyMatchesPii(key: string) {
    exists i :: 0 <= i < |PII_KEY_SUBSTRINGS| && Includes(Compact(key), PII_KEY_SUBSTRINGS[i])
  }

  lemma {:induction false} CompactConcat(a: string, b: string)
    ensures Compact(a + b) == Compact(a) + Compact(b)
  {
    if a == "" {
      assert a + b == b;
    } else {
      assert (a + b)[1..] == a[1..] + b;
      CompactConcat(a[1..], b);
    }
  }

  // ---------------------------------------------------------------------------------------------
  // Which keys match
  // ---------------------------------------------------------------------------------------------

  const LETTERS := "abcdefghijklmnopqrstuvwxyz"
  const CAPITALS := "ABCDEFGHIJKLMNOPQRSTUVWXYZ"

  /** c is written for the letter l: in either case, or as the Kelvin sign for k. */
  ghost predicate StandsFor(c: char, l: char) {
    c == l || (exists n :: 0 <= n < 26 && LETTERS[n] == l && CAPITALS[n] == c) || (l == 'k' && c == '\U{212A}')
  }

  predicate IsSeparator(c: char) {
    c == '_' || c == '-' || IsSpace(c)
  }

  /** The piece is the fragment, letter by letter, with separators strewn in. */
  ghost predicate Spells(piece: string, fragment: string) {
    if piece == "" then fragment == ""
    else if IsSeparator(piece[0]) then Spells(piece[1..], fragment)
    else fragment != "" && StandsFor(piece[0], fragment[0]) && Spells(piece[1..], fragment[1..])
  }

  /** Some piece of the key spells the fragment. */
  ghost predicate Contains(key: string, fragment: string) {
    exists i, j :: 0 <= i <= j <= |key| && Spells(key[i..j], fragment)
  }

  ghost predicate IsWord(fragment: string) {
    forall k | 0 <= k < |fragment| :: 'a' <= fragment[k] <= 'z'
  }

  lemma LowersExactly(c: char, l: char)
    requires 'a' <= l <= 'z'
    ensures StandsFor(c, l) <==> ToLower(c) == l
  {
    assert forall n | 0 <= n < 26 :: LETTERS[n] as int == 'a' as int + n && CAPITALS[n] as int == 'A' as int + n;
    if ToLower(c) == l && 'A' <= c <= 'Z' {
      var n := c as int - 'A' as int;
      assert LETTERS[n] == l && CAPITALS[n] == c;
    }
  }

  lemma {:induction false} SpellsExactly(piece: string, fragment: string)
    requires IsWord(fragment)
    ensures Spells(piece, fragment) <==> Compact(piece) == fragment
  {
    if piece != "" {
      if IsSeparator(piece[0]) {
        SpellsExactly(piece[1..], fragment);
      } else if fragment != "" {
        LowersExactly(piece[0], fragment[0]);
        SpellsExactly(piece[1..], fragment[1..]);
        var compact := [ToLower(piece[0])] + Compact(piece[1..]);
        assert compact[0] == ToLower(piece[0]) && compact[1..] == Compact(piece[1..]);
        assert fragment == [fragment[0]] + fragment[1..];
      }
    }
  }

  /** Every length up to that of the compact key is the length of some compact prefix. */
  lemma {:induction false} PrefixOfLength(key: string, n: nat) returns (i: nat)
    requires n <= |Compact(key)|
    ensures i <= |key| && |Compact(key[..i])| == n
  {
    if n == 0 {
      i := 0;
      assert key[..0] == "";
    } else {
      var step := |Compact(key)| - |Compact(key[1..])|;
      var rest := PrefixOfLength(key[1..], n - step);
      i := rest + 1;
      assert key[..i][0] == key[0] && key[..i][1..] == key[1..][..rest];
    }
  }

  lemma SpelledIsIncluded(key: string, fragment: string, i: nat, j: nat)
    requires IsWord(fragment) && i <= j <= |key| && Spells(key[i..j], fragment)
    ensures Includes(Compact(key), fragment)
  {
    SpellsExactly(key[i..j], fragment);
    CompactInPieces(key, i, j);
    assert OccursAt(Compact(key[i..j]), fragment, 0);
    IncludesInContext(Compact(key[..i]), Compact(key[i..j]), Compact(key[j..]), fragment);
  }

  lemma CompactInPieces(key: string, i: nat, j: nat)
    requires i <= j <= |key|
    ensures Compact(key) == Compact(key[..i]) + Compact(key[i..j]) + Compact(key[j..])
  {
    assert key == key[..i] + key[i..j] + key[j..];
    CompactConcat(key[..i] + key[i..j], key[j..]);
    CompactConcat(key[..i], key[i..j]);
  }

  lemma IncludedIsSpelled(key: string, fragment: string, p: nat) returns (i: nat, j: nat)
    requires IsWord(fragment) && p <= |Compact(key)| && OccursAt(Compact(key), fragment, p)
    ensures i <= j <= |key| && Spells(key[i..j], fragment)
  {
    i := PrefixOfLength(key, p);
    var rest := key[i..];
    assert key == key[..i] + rest;
    CompactConcat(key[..i], rest);
    assert Compact(rest) == Compact(key)[p..];
    var n := PrefixOfLength(rest, |fragment|);
    j := i + n;
    HeadOf(rest, n, fragment);
    assert rest[..n] == key[i..j];
    SpellsExactly(key[i..j], fragment);
  }

  lemma HeadOf(rest: string, n: nat, fragment: string)
    requires n <= |rest| && |Compact(rest[..n])| == |fragment| <= |Compact(rest)|
    requires Compact(rest)[..|fragment|] == fragment
    ensures Compact(rest[..n]) == fragment
  {
    assert rest == rest[..n] + rest[n..];
    CompactConcat(rest[..n], rest[n..]);
  }

  lemma ContainsExactly(key: string, fragment: string)
    requires IsWord(fragment)
    ensures Contains(key, fragment) <==> Includes(Compact(key), fragment)
  {
    if i, j :| 0 <= i <= j <= |key| && Spells(key[i..j], fragment) {
      SpelledIsIncluded(key, fragment, i, j);
    }
    if p :| 0 <= p <= |Compact(key)| && OccursAt(Compact(key), fragment, p) {
      var i, j := IncludedIsSpelled(key, fragment, p);
    }
  }

  /**
   A key matches exactly if some piece of it spells one of the nine fragments, in any case and with
   underscores, hyphens and white space anywhere in between.
   */
  lemma KeyMatchesExactly(key: string)
    ensures KeyMatchesPii(key) <==>
            || Contains(key, "email") || Contains(key, "password") || Contains(key, "token") || Contains(key, "secret")
            || Contains(key, "authorization") || Contains(key, "cookie") || Contains(key, "ssn")
            || Contains(key, "creditcard") || Contains(key, "cardnumber")
  {
    ContainsExactly(key, "email");
    ContainsExactly(key, "password");
    ContainsExactly(key, "token");
    ContainsExactly(key, "secret");
    ContainsExactly(key, "authorization");
    ContainsExactly(key, "cookie");
    ContainsExactly(key, "ssn");
    ContainsExactly(key, "creditcard");
    ContainsExactly(key, "cardnumber");
    var all := PII_KEY_SUBSTRINGS;
    assert KeyMatchesPii(key) <==>
           || Includes(Compact(key), all[0]) || Includes(Compact(key), all[1]) || Includes(Compact(key), all[2])
           || Includes(Compact(key), all[3]) || Includes(Compact(key), all[4]) || Includes(Compact(key), all[5])
           || Includes(Compact(key), all[6]) || Includes(Compact(key), all[7]) || Includes(Compact(key), all[8]);
  }

  /** A key that contains a matching key matches, whatever surrounds it. */
  lemma MatchesInContext(pre: string, key: string, post: string)
    requires KeyMatchesPii(key)
    ensures KeyMatchesPii(pre + key + post)
  {
    CompactConcat(pre + key, post);
    CompactConcat(pre, key);
    var i :| 0 <= i < |PII_KEY_SUBSTRINGS| && Includes(Compact(key), PII_KEY_SUBSTRINGS[i]);
    IncludesInContext(Compact(pre), Compact(key), Compact(post), PII_KEY_SUBSTRINGS[i]);
  }

  /** redactNestedValue. */
  function Redact(v: Json): Json {
    match v
    case Arr(items) => Arr(RedactItems(items))
    case Obj(entries) => Obj(RedactEntries(entries))
    case _ => v
  }

  function RedactItems(items: seq<Json>): (r: seq<Json>)
    ensures |r| == |items|
    ensures forall i | 0 <= i < |r| :: r[i] == Redact(items[i])
  {
    if items == [] then [] else [Redact(items[0])] + RedactItems(items[1..])
  }

  function RedactEntry(e: (string, Json)): (string, Json) {
    (e.0, if KeyMatchesPii(e.0) then REDACTED else Redact(e.1))
  }

  /** redactPii. */
  function RedactEntries(entries: Entries): (r: Entries)
    ensures |r| == |entries|
    ensures forall i | 0 <= i < |r| :: r[i] == RedactEntry(entries[i])
  {
    if entries == [] then [] else [RedactEntry(entries[0])] + RedactEntries(entries[1..])
  }

  lemma {:induction false} RedactItemsAppend(a: seq<Json>, b: seq<Json>)
    ensures RedactItems(a + b) == RedactItems(a) + RedactItems(b)
    decreases |a|
  {
    if a == [] {
      assert a + b == b;
    } else {
      assert (a + b)[1..] == a[1..] + b;
      RedactItemsAppend(a[1..], b);
    }
  }

  method RedactNestedValue(value: Json) returns (r: Json)
    ensures r == Redact(value)
    decreases value
  {
    match value {
      case Arr(items) =>
        var out: seq<Json> := [];
        for i := 0 to |items|
          invariant out == RedactItems(items[..i])
        {
          var item := RedactNestedValue(items[i]);
          assert items[..i + 1] == items[..i] + [items[i]];
          RedactItemsAppend(items[..i], [items[i]]);
          out := out + [item];
        }
        assert items[..|items|] == items;
        r := Arr(out);
      case Obj(entries) =>
        var out := RedactPii(entries);
        r := Obj(out);
      case _ => r := value;
    }
  }

  method RedactPii(details: Entries) returns (result: Entries)
    ensures result == RedactEntries(details)
    decreases details
  {
    result := [];
    for i := 0 to |details|
      invariant |result| == i
      invariant forall k | 0 <= k < i :: result[k] == RedactEntry(details[k])
    {
      var entry := details[i];
      var (key, value) := entry;
      assert value < entry;
      if KeyMatchesPii(key) {
        result := result + [(key, REDACTED)];
        continue;
      }
      var nested := RedactNestedValue(value);
      result := result + [(key, nested)];
    }
  }

  // ---------------------------------------------------------------------------------------------
  // What redaction does to each place inside a value
  // ---------------------------------------------------------------------------------------------

  /** A place inside a value: positions of items and entries, from the outside in. */
  type Path = seq<nat>

  function Children(v: Json): seq<Json> {
    match v
    case Arr(items) => items
    case Obj(entries) => seq(|entries|, i requires 0 <= i < |entries| => entries[i].1)
    case _ => []
  }

  function At(v: Json, p: Path): Option<Json>
    decreases |p|
  {
    if p == [] then Some(v)
    else if p[0] < |Children(v)| then At(Children(v)[p[0]], p[1..])
    else None
  }

  /** The position i of v is an entry under a matching key. */
  predicate PiiPosition(v: Json, i: nat) {
    v.Obj? && i < |v.entries| && KeyMatchesPii(v.entries[i].0)
  }

  /** Some step of p enters a matching key. */
  predicate Hidden(v: Json, p: Path)
    decreases |p|
  {
    p != [] && p[0] < |Children(v)| && (PiiPosition(v, p[0]) || Hidden(Children(v)[p[0]], p[1..]))
  }

  /** p ends in a matching key. */
  predicate EndsInPii(v: Json, p: Path)
    decreases |p|
  {
    p != [] && p[0] < |Children(v)| &&
    if |p| == 1 then PiiPosition(v, p[0]) else EndsInPii(Children(v)[p[0]], p[1..])
  }

  predicate SameHead(v: Json, w: Json) {
    match v
    case Arr(items) => w.Arr? && |w.items| == |items|
    case Obj(entries) => w.Obj? && |w.entries| == |entries| && forall i | 0 <= i < |entries| ::
      w.entries[i].0 == entries[i].0
    case _ => w == v
  }

  /**
   Places not under a matching key keep their kind, their length and their keys (scalars keep their
   value); the values right under a matching key become the marker; nothing else remains or appears.
   */
  lemma {:induction false} RedactionByPlace(v: Json, p: Path)
    ensures At(v, p).None? ==> At(Redact(v), p).None?
    ensures At(v, p).Some? && !Hidden(v, p)
      ==> At(Redact(v), p).Some? && SameHead(At(v, p).value, At(Redact(v), p).value)
    ensures At(v, p).Some? && Hidden(v, p) && !Hidden(v, p[..|p| - 1]) ==> At(Redact(v), p) == Some(REDACTED)
    ensures At(v, p).Some? && Hidden(v, p) && Hidden(v, p[..|p| - 1]) ==> At(Redact(v), p).None?
    decreases |p|
  {
    if p != [] && p[0] < |Children(v)| {
      var i, rest := p[0], p[1..];
      assert |Children(Redact(v))| == |Children(v)|;
      if PiiPosition(v, i) {
        assert Children(Redact(v))[i] == REDACTED;
        assert rest != [] ==> p[..|p| - 1][0] == i;
      } else {
        assert Children(Redact(v))[i] == Redact(Children(v)[i]);
        RedactionByPlace(Children(v)[i], rest);
        if rest != [] {
          assert p[..|p| - 1][1..] == rest[..|rest| - 1];
        }
      }
    }
  }

  /** After redaction, only the marker stands under a matching key, at any depth. */
  lemma {:induction false} OnlyMarkersUnderPii(v: Json, p: Path)
    requires EndsInPii(Redact(v), p)
    ensures At(Redact(v), p) == Some(Str("[REDACTED]"))
    decreases |p|
  {
    var w := Redact(v);
    var i := p[0];
    if PiiPosition(w, i) {
      assert Children(w)[i] == REDACTED;
    } else {
      assert Children(w)[i] == Redact(Children(v)[i]);
      OnlyMarkersUnderPii(Children(v)[i], p[1..]);
    }
  }

  lemma {:induction false} RedactIdempotent(v: Json)
    ensures Redact(Redact(v)) == Redact(v)
  {
    match v
    case Arr(items) =>
      forall i | 0 <= i < |items|
        ensures Redact(Redact(items[i])) == Redact(items[i])
      {
        RedactIdempotent(items[i]);
      }
      assert RedactItems(RedactItems(items)) == RedactItems(items);
    case Obj(entries) =>
      forall i | 0 <= i < |entries|
        ensures RedactEntry(RedactEntry(entries[i])) == RedactEntry(entries[i])
      {
        RedactIdempotent(entries[i].1);
      }
      assert RedactEntries(RedactEntries(entries)) == RedactEntries(entries);
    case _ =>
  }

  ghost predicate Clean(v: Json) {
    forall p | EndsInPii(v, p) :: At(v, p) == Some(REDACTED)
  }

  lemma CleanChild(v: Json, i: nat)
    requires Clean(v) && i < |Children(v)|
    ensures Clean(Children(v)[i])
    ensures PiiPosition(v, i) ==> Children(v)[i] == REDACTED
  {
    var c := Children(v)[i];
    forall p | EndsInPii(c, p)
      ensures At(c, p) == Some(REDACTED)
    {
      var q := [i] + p;
      assert q[1..] == p;
      assert EndsInPii(v, q);
    }
    if PiiPosition(v, i) {
      assert EndsInPii(v, [i]);
      assert At(v, [i]) == At(c, []);
    }
  }

  /** Redaction changes nothing exactly when only markers stand under matching keys. */
  lemma {:induction false} RedactFixesExactlyClean(v: Json)
    ensures Redact(v) == v <==> Clean(v)
    decreases v
  {
    if Redact(v) == v {
      forall p | EndsInPii(v, p)
        ensures At(v, p) == Some(REDACTED)
      {
        OnlyMarkersUnderPii(v, p);
      }
    }
    if Clean(v) {
      CleanIsFixed(v);
    }
  }

  lemma {:induction false} CleanIsFixed(v: Json)
    requires Clean(v)
    ensures Redact(v) == v
    decreases v
  {
    match v
    case Arr(items) =>
      forall i | 0 <= i < |items|
        ensures Redact(items[i]) == items[i]
      {
        CleanChild(v, i);
        CleanIsFixed(items[i]);
      }
      assert RedactItems(items) == items;
    case Obj(entries) =>
      forall i | 0 <= i < |entries|
        ensures RedactEntry(entries[i]) == entries[i]
      {
        CleanChild(v, i);
        CleanIsFixed(entries[i].1);
      }
      assert RedactEntries(entries) == entries;
    case _ =>
  }
}

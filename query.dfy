/**
 * `parseQuery` of create.js: a URL query string `?k=v&k2=v2` becomes a
 * dictionary. `decodeURIComponent` is a parameter; it yields `None` where the
 * JavaScript function throws a `URIError`, and the parse then fails as a whole.
 */
module Query {
  import opened Wrappers

  type Decoder = string -> Option<string>

  /** `s.split(sep)` for a one-character separator: the pieces between the
      separators, so always at least one. */
  function Split(s: string, sep: char): (r: seq<string>)
    ensures |r| >= 1
    ensures forall i :: 0 <= i < |r| ==> sep !in r[i]
  {
    if s == [] then [[]]
    else
      var rest := Split(s[1..], sep);
      if s[0] == sep then [[]] + rest else [[s[0]] + rest[0]] + rest[1..]
  }

  /** `parts.join(sep)`. */
  function Join(parts: seq<string>, sep: char): string
    requires |parts| >= 1
  {
    if |parts| == 1 then parts[0] else parts[0] + [sep] + Join(parts[1..], sep)
  }

  /** Joining the pieces with the separator gives back the string. */
  lemma {:induction false} JoinSplit(s: string, sep: char)
    ensures Join(Split(s, sep), sep) == s
  {
    if s != [] {
      var rest := Split(s[1..], sep);
      JoinSplit(s[1..], sep);
      if s[0] != sep {
        var r := Split(s, sep);
        if |rest| == 1 {
          assert r == [[s[0]] + rest[0]];
        } else {
          assert r[1..] == rest[1..];
          assert Join(r, sep) == [s[0]] + rest[0] + [sep] + Join(rest[1..], sep);
        }
      }
    }
  }

  /** And splitting a join of separator-free pieces gives back the pieces. */
  lemma {:induction false} SplitJoin(parts: seq<string>, sep: char)
    requires |parts| >= 1
    requires forall i :: 0 <= i < |parts| ==> sep !in parts[i]
    ensures Split(Join(parts, sep), sep) == parts
  {
    if |parts| == 1 {
      SplitPiece(parts[0], sep);
    } else {
      SplitJoin(parts[1..], sep);
      SplitPrefix(parts[0], Join(parts[1..], sep), sep);
      assert parts == [parts[0]] + parts[1..];
    }
  }

  lemma {:induction false} SplitPiece(p: string, sep: char)
    requires sep !in p
    ensures Split(p, sep) == [p]
  {
    if p != [] {
      SplitPiece(p[1..], sep);
      assert p == [p[0]] + p[1..];
    }
  }

  lemma {:induction false} SplitPrefix(p: string, s: string, sep: char)
    requires sep !in p
    ensures Split(p + [sep] + s, sep) == [p] + Split(s, sep)
  {
    if p == [] {
      assert p + [sep] + s == [sep] + s;
      assert ([sep] + s)[1..] == s;
    } else {
      var t := p + [sep] + s;
      assert t[1..] == p[1..] + [sep] + s;
      SplitPrefix(p[1..], s, sep);
      assert [p[0]] + p[1..] == p;
    }
  }

  /** The pairs of a query string: a leading `?` is dropped, the rest split at `&`. */
  function Pairs(q: string): seq<string>
  {
    Split(if |q| > 0 && q[0] == '?' then q[1..] else q, '&')
  }

  /** One pair `k=v` split at `=`: the key is the piece before the first `=`, the
      value the piece after it up to any second `=` (`pair[1] || ''`), and empty
      when there is no `=`. */
  function RawEntry(pair: string): (string, string)
  {
    var pieces := Split(pair, '=');
    (pieces[0], if |pieces| > 1 then pieces[1] else "")
  }

  /** The decoded entry, or `None` when either half fails to decode. */
  function Entry(pair: string, decode: Decoder): Option<(string, string)>
  {
    var (k, v) := RawEntry(pair);
    match decode(k)
    case None => None
    case Some(key) =>
      match decode(v)
      case None => None
      case Some(value) => Some((key, value))
  }

  /** The one key a plain object does not store: `query["__proto__"] = v` goes to
      the `Object.prototype.__proto__` setter, which ignores a string value. */
  const ProtoKey: string := "__proto__"

  /** The dictionary the first `|pairs|` assignments build: each pair assigns its
      key, later pairs overwriting earlier ones; an assignment to `ProtoKey` is
      decoded but stores nothing. */
  function Assign(pairs: seq<string>, decode: Decoder): Option<map<string, string>>
  {
    if pairs == [] then Some(map[])
    else
      match Assign(pairs[..|pairs| - 1], decode)
      case None => None
      case Some(m) =>
        match Entry(pairs[|pairs| - 1], decode)
        case None => None
        case Some((k, v)) => Some(if k == ProtoKey then m else m[k := v])
  }

  /** `parseQuery(q)`. */
  method ParseQuery(q: string, decode: Decoder) returns (r: Option<map<string, string>>)
    ensures r == Assign(Pairs(q), decode)
  {
    var pairs := Split(if |q| > 0 && q[0] == '?' then q[1..] else q, '&');
    var query: map<string, string> := map[];
    for i := 0 to |pairs|
      invariant Assign(pairs[..i], decode) == Some(query)
    {
      assert pairs[..i + 1][..i] == pairs[..i];
      var pieces := Split(pairs[i], '=');
      var key := decode(pieces[0]);
      var value := decode(if |pieces| > 1 then pieces[1] else "");
      if key.None? || value.None? {
        assert Entry(pairs[i], decode).None?;
        AssignFails(pairs, decode, i);
        return None;
      }
      assert Entry(pairs[i], decode) == Some((key.value, value.value));
      if key.value != ProtoKey {
        query := query[key.value := value.value];
      }
    }
    assert pairs[..|pairs|] == pairs;
    return Some(query);
  }

  /** A successful parse decoded every pair. */
  lemma {:induction false} AssignDecodesAll(pairs: seq<string>, decode: Decoder)
    requires Assign(pairs, decode).Some?
    ensures forall i :: 0 <= i < |pairs| ==> Entry(pairs[i], decode).Some?
  {
    if pairs != [] {
      var init := pairs[..|pairs| - 1];
      AssignDecodesAll(init, decode);
      assert forall i :: 0 <= i < |init| ==> init[i] == pairs[i];
    }
  }

  /** A successful parse holds exactly the keys of the pairs, except `ProtoKey`. */
  lemma {:induction false} AssignKeys(pairs: seq<string>, decode: Decoder, k: string)
    requires Assign(pairs, decode).Some?
    ensures k in Assign(pairs, decode).value <==>
      k != ProtoKey && exists i :: 0 <= i < |pairs| && decode(RawEntry(pairs[i]).0) == Some(k)
  {
    if pairs != [] {
      var init := pairs[..|pairs| - 1];
      AssignKeys(init, decode, k);
      assert forall i :: 0 <= i < |init| ==> init[i] == pairs[i];
    }
  }

  /** Each key other than `ProtoKey` holds the value of the last pair that names
      it (`AssignKeys` shows that `ProtoKey` is never stored). */
  lemma {:induction false} AssignLastWins(pairs: seq<string>, decode: Decoder, i: nat, k: string, v: string)
    requires Assign(pairs, decode).Some? && i < |pairs|
    requires Entry(pairs[i], decode) == Some((k, v)) && k != ProtoKey
    requires forall j :: i < j < |pairs| ==> decode(RawEntry(pairs[j]).0) != Some(k)
    ensures k in Assign(pairs, decode).value && Assign(pairs, decode).value[k] == v
  {
    var init := pairs[..|pairs| - 1];
    assert forall j :: 0 <= j < |init| ==> init[j] == pairs[j];
    if i < |pairs| - 1 {
      AssignLastWins(init, decode, i, k, v);
    }
  }

  /** A pair that fails to decode fails the parse. */
  lemma {:induction false} AssignFails(pairs: seq<string>, decode: Decoder, i: nat)
    requires i < |pairs| && Entry(pairs[i], decode).None?
    ensures Assign(pairs, decode).None?
  {
    if i < |pairs| - 1 {
      var init := pairs[..|pairs| - 1];
      assert init[i] == pairs[i];
      AssignFails(init, decode, i);
    }
  }

  /** The empty query string is one empty pair: `{"": ""}`. */
  lemma EmptyQuery(decode: Decoder)
    requires decode("") == Some("")
    ensures Assign(Pairs(""), decode) == Some(map["" := ""])
  {
    assert Pairs("") == [""];
    assert Assign([""], decode) == Some(map[][ "" := ""]);
  }

  /** A pair `k=v` whose halves hold no `=` reads back as `(k, v)`. */
  lemma RawEntryOf(k: string, v: string)
    requires '=' !in k && '=' !in v
    ensures RawEntry(k + ['='] + v) == (k, v)
  {
    SplitPrefix(k, v, '=');
    SplitPiece(v, '=');
  }

  /** The two pairs of `?__proto__=x&a=1`. */
  lemma ProtoPairs()
    ensures Pairs("?__proto__=x&a=1") == [ProtoKey + ['='] + "x", "a" + ['='] + "1"]
  {
    var p1, p2 := ProtoKey + ['='] + "x", "a" + ['='] + "1";
    assert "?__proto__=x&a=1"[1..] == p1 + ['&'] + p2;
    SplitPrefix(p1, p2, '&');
    SplitPiece(p2, '&');
  }

  /** `parseQuery("?__proto__=x&a=1")` is `{a: "1"}`: the `__proto__` pair is read
      and decoded but leaves no entry. */
  lemma ProtoQuery(decode: Decoder)
    requires forall t :: t in {ProtoKey, "x", "a", "1"} ==> decode(t) == Some(t)
    ensures Assign(Pairs("?__proto__=x&a=1"), decode) == Some(map["a" := "1"])
  {
    var p1, p2 := ProtoKey + ['='] + "x", "a" + ['='] + "1";
    ProtoPairs();
    RawEntryOf(ProtoKey, "x");
    RawEntryOf("a", "1");
    assert [p1, p2][..1] == [p1];
    assert Assign([p1], decode) == Some(map[]);
  }

}

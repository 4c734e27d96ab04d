/** The request's headers as werkzeug exposes them over a WSGI environ.
    The server stores each header under an environ key, its name upper-cased
    with `-` written `_`, so `name in headers` and `headers.get(name)`
    compare those keys, and `headers.items()` reports each name rebuilt
    from its key. A lookup takes the first matching entry. */
module Headers {

  import opened Wrappers
  import opened Seqs
  import opened PyStr

  /** A header as the client sent it: name and value. */
  type Header = (string, string)

  function EnvChar(c: char): char
  {
    if c == '-' then '_' else UpperChar(c)
  }

  /** The environ key of a header name, without its `HTTP_` prefix. */
  function EnvKey(name: string): (k: string)
    ensures |k| == |name|
    ensures forall i :: 0 <= i < |name| ==> k[i] == EnvChar(name[i])
  {
    seq(|name|, i requires 0 <= i < |name| => EnvChar(name[i]))
  }

  /** Two names that reach the same environ key. */
  predicate NameEq(a: string, b: string)
  {
    EnvKey(a) == EnvKey(b)
  }

  /** The name `items()` reports: the environ key with `_` turned back
      into `-`, title-cased. */
  function ItemName(name: string): string
  {
    Title(Undash(EnvKey(name)))
  }

  /** `key.replace('_', '-')`. */
  function Undash(k: string): (d: string)
    ensures |d| == |k|
    ensures forall i :: 0 <= i < |k| ==> d[i] == if k[i] == '_' then '-' else k[i]
  {
    seq(|k|, i requires 0 <= i < |k| => if k[i] == '_' then '-' else k[i])
  }

  /** An entry of `headers.items()`. */
  function Item(p: Header): Header
  {
    (ItemName(p.0), p.1)
  }

  /** `headers.items()`, one entry per header. */
  function Items(h: seq<Header>): (r: seq<Header>)
    ensures |r| == |h|
    ensures forall i :: 0 <= i < |h| ==> r[i] == Item(h[i])
  {
    seq(|h|, i requires 0 <= i < |h| => Item(h[i]))
  }

  /** The rebuilt name reaches the header's own environ key, so `get` on
      it finds the header again. */
  lemma ItemNameSameKey(name: string)
    ensures EnvKey(ItemName(name)) == EnvKey(name)
  {
    var d := Undash(EnvKey(name));
    var t := ItemName(name);
    assert t == Title(d);
    forall i | 0 <= i < |name| ensures EnvChar(t[i]) == EnvChar(name[i]) {
      assert IsLetter(d[i]) <==> IsLetter(name[i]);
    }
  }

  /** Rebuilding a rebuilt name changes nothing. */
  lemma ItemNameIdempotent(name: string)
    ensures ItemName(ItemName(name)) == ItemName(name)
  {
    ItemNameSameKey(name);
  }

  function FindHeader(h: seq<Header>, name: string): (i: nat)
    ensures i <= |h|
    ensures i < |h| ==> NameEq(h[i].0, name)
    ensures forall j :: 0 <= j < i ==> !NameEq(h[j].0, name)
  {
    FirstWhere(h, (x: Header) => NameEq(x.0, name))
  }

  /** `name in headers`. */
  predicate Has(h: seq<Header>, name: string)
  {
    FindHeader(h, name) < |h|
  }

  /** `headers.get(name)`, with Python's `None` as `None`: the value of the
      first entry under the same environ key. */
  function Lookup(h: seq<Header>, name: string): (r: Option<string>)
    ensures r.Some? <==> Has(h, name)
    ensures r.Some? ==> r.value == h[FindHeader(h, name)].1
  {
    var i := FindHeader(h, name);
    if i < |h| then Some(h[i].1) else None
  }

  /** `headers.get(name, default)`. */
  function GetOr(h: seq<Header>, name: string, default: string): (v: string)
    ensures Lookup(h, name).None? ==> v == default
    ensures Lookup(h, name).Some? ==> v == Lookup(h, name).value
  {
    match Lookup(h, name)
    case Some(v) => v
    case None => default
  }

  /** No two entries share an environ key, as in a WSGI environ, where each
      header is one dictionary key. */
  predicate UniqueNames(h: seq<Header>)
  {
    forall i, j :: 0 <= i < j < |h| ==> !NameEq(h[i].0, h[j].0)
  }

  /** An entry is found under any spelling of its name. */
  lemma HasEntry(h: seq<Header>, k: nat, name: string)
    requires k < |h| && NameEq(h[k].0, name)
    ensures Has(h, name)
  {
    FirstWhereAtMost(h, (x: Header) => NameEq(x.0, name), k);
  }

  /** The first entry answers for its own name. */
  lemma LookupHead(h: seq<Header>, name: string)
    requires h != [] && NameEq(h[0].0, name)
    ensures Lookup(h, name) == Some(h[0].1)
  {
  }

  /** With unique names an entry's own value is what `get` returns for it. */
  lemma LookupUnique(h: seq<Header>, p: Header, name: string)
    requires UniqueNames(h) && p in h && NameEq(p.0, name)
    ensures Lookup(h, name) == Some(p.1)
  {
    var k :| 0 <= k < |h| && h[k] == p;
    HasEntry(h, k, name);
    var i := FindHeader(h, name);
    if i < k {
      assert NameEq(h[i].0, h[k].0);
    }
  }

  /** An entry under another environ key, inserted anywhere, does not
      change what `get` returns. */
  lemma LookupInsert(h: seq<Header>, i: nat, x: Header, name: string)
    requires i <= |h| && !NameEq(x.0, name)
    ensures Lookup(h[..i] + [x] + h[i..], name) == Lookup(h, name)
  {
    var p := (y: Header) => NameEq(y.0, name);
    var a, b := h[..i], h[i..];
    var h' := h[..i] + [x] + h[i..];
    assert h == a + b;
    assert h' == a + ([x] + b);
    FirstWhereConcat(a, b, p);
    FirstWhereConcat(a, [x] + b, p);
    assert ([x] + b)[1..] == b;
    assert FirstWhere([x] + b, p) == 1 + FirstWhere(b, p);
    var fa, fb := FirstWhere(a, p), FirstWhere(b, p);
    if fa < |a| {
      assert FindHeader(h', name) == fa == FindHeader(h, name);
      assert h'[fa] == h[fa];
    } else {
      assert FindHeader(h', name) == |a| + 1 + fb;
      assert FindHeader(h, name) == |a| + fb;
      if fb < |b| {
        assert h'[|a| + 1 + fb] == b[fb] == h[|a| + fb];
      }
    }
  }

  /** `request.args.get(key, default)`: query arguments are matched exactly. */
  function ArgGet(args: seq<(string, string)>, key: string, default: string): (v: string)
    ensures (forall i :: 0 <= i < |args| ==> args[i].0 != key) ==> v == default
    ensures forall i :: 0 <= i < |args| && args[i].0 == key ==>
      exists j :: 0 <= j <= i && args[j] == (key, v)
  {
    var i := FirstWhere(args, (a: (string, string)) => a.0 == key);
    if i < |args| then args[i].1 else default
  }
}

/** The string-to-sign of a request (Signature Version 2 layout):
    the date header, the CanonicalizedAmzHeaders block built from the
    `X-Amz-` headers, and the newline-separated concatenation. */
module Canonical {

  import opened Wrappers
  import opened Seqs
  import opened PyStr
  import opened Exceptions
  import opened Headers
  import opened PyOrder

  // ----- get_date_on_request -----

  /** The date headers in the order they are tried. */
  const DateKeys: seq<string> := ["Date", "X-Amz-Date"]

  /** The value of the first date header present. */
  function DateOnRequest(h: seq<Header>): (r: Result<string, Error>)
    ensures Has(h, "Date") ==> r == Success(GetOr(h, "Date", ""))
    ensures !Has(h, "Date") && Has(h, "X-Amz-Date") ==> r == Success(GetOr(h, "X-Amz-Date", ""))
    ensures !Has(h, "Date") && !Has(h, "X-Amz-Date") ==> r == Failure(InvalidArgument)
  {
    var i := FirstWhere(DateKeys, (k: string) => Has(h, k));
    if i < |DateKeys| then Success(GetOr(h, DateKeys[i], "")) else Failure(InvalidArgument)
  }

  /** The `for key in [...]: if key in headers: break / else: raise` search. */
  method GetDateOnRequest(h: seq<Header>) returns (r: Result<string, Error>)
    ensures r == DateOnRequest(h)
  {
    var keys := DateKeys;
    var found := false;
    var key := "";
    for i := 0 to |keys|
      invariant forall j :: 0 <= j < i ==> !Has(h, keys[j])
    {
      if Has(h, keys[i]) {
        key := keys[i];
        found := true;
        assert keys[i] == DateKeys[i];
        break;
      }
    }
    if !found {
      return Failure(InvalidArgument);
    }
    r := Success(GetOr(h, key, ""));
  }

  // ----- generate_x_amz_string -----

  predicate IsAmzName(name: string)
  {
    StartsWith(name, "X-Amz-")
  }

  /** `filter(lambda x: x[0].startswith('X-Amz-'), headers.items())`: the
      entries of `items()` whose rebuilt name starts with `X-Amz-`. */
  function AmzHeaders(h: seq<Header>): (r: seq<Header>)
    ensures |r| <= |h|
    decreases |h|
  {
    if h == [] then []
    else if IsAmzName(ItemName(h[0].0)) then [Item(h[0])] + AmzHeaders(h[1..])
    else AmzHeaders(h[1..])
  }

  /** The filter keeps every `X-Amz-` entry of `items()`, as often as it
      occurs, and no other. */
  lemma {:induction false} AmzHeadersSelects(h: seq<Header>)
    ensures forall p :: multiset(AmzHeaders(h))[p] == if IsAmzName(p.0) then multiset(Items(h))[p] else 0
    decreases |h|
  {
    if h != [] {
      AmzHeadersSelects(h[1..]);
      assert Items(h) == [Item(h[0])] + Items(h[1..]);
    }
  }

  /** A header is selected whatever case and whichever of `-` and `_` the
      client spelled its name with: exactly when its environ key starts
      with `X_AMZ_`. */
  lemma AmzNameAnySpelling(name: string)
    ensures IsAmzName(ItemName(name)) <==> StartsWith(EnvKey(name), "X_AMZ_")
  {
    var k := EnvKey(name);
    var t := ItemName(name);
    ItemNameSameKey(name);
    if IsAmzName(t) {
      forall j | 0 <= j < 6 ensures k[j] == "X_AMZ_"[j] {
        assert t[j] == "X-Amz-"[j];
        assert EnvKey(t)[j] == EnvChar(t[j]);
      }
      assert k[..6] == "X_AMZ_";
    }
    if StartsWith(k, "X_AMZ_") {
      TitleOfAmzKey(k);
    }
  }

  /** The title-cased form of a key that starts with `X_AMZ_`. */
  lemma TitleOfAmzKey(k: string)
    requires StartsWith(k, "X_AMZ_")
    ensures StartsWith(Title(Undash(k)), "X-Amz-")
  {
    var d := Undash(k);
    var t := Title(d);
    forall j | 0 <= j < 6 ensures d[j] == "X-AMZ-"[j] {
      assert k[j] == "X_AMZ_"[j];
    }
    forall j | 0 <= j < 6 ensures t[j] == "X-Amz-"[j] {
    }
    assert t[..6] == "X-Amz-";
  }

  /** `'{}'.format(v)` of what `headers.get` returned. */
  function FormatValue(v: Option<string>): (r: string)
    ensures v.Some? ==> r == v.value
    ensures v.None? ==> r == "None"
  {
    match v
    case Some(s) => s
    case None => "None"
  }

  /** `'{}:{}\n'.format(name.lower(), value)`. */
  function FormatLine(name: string, value: string): (line: string)
  {
    Lower(name) + ":" + value + "\n"
  }

  /** One line of the block; the value is looked up again by name. */
  function AmzLine(p: Header, h: seq<Header>): (line: string)
  {
    FormatLine(p.0, FormatValue(Lookup(h, p.0)))
  }

  /** The lines for `s`, appended in order. */
  function AmzLines(s: seq<Header>, h: seq<Header>): (r: string)
    ensures r == "" <==> s == []
    ensures r != "" ==> r[|r| - 1] == '\n'
    decreases |s|
  {
    if s == [] then "" else AmzLines(s[..|s| - 1], h) + AmzLine(s[|s| - 1], h)
  }

  /** CanonicalizedAmzHeaders as the source builds it: empty exactly when
      no header is selected, and otherwise ending in a newline. */
  function XAmzString(h: seq<Header>): (r: string)
    ensures r == "" <==> AmzHeaders(h) == []
    ensures r != "" ==> r[|r| - 1] == '\n'
  {
    AmzLines(Sort(AmzHeaders(h)), h)
  }

  /** The accumulation loop `ret += '{}:{}\n'.format(k, v)` over the sorted headers. */
  method GenerateXAmzString(h: seq<Header>) returns (ret: string)
    ensures ret == XAmzString(h)
  {
    var sorted := Sort(AmzHeaders(h));
    ret := "";
    for i := 0 to |sorted|
      invariant ret == AmzLines(sorted[..i], h)
    {
      var k := Lower(sorted[i].0);
      var v := FormatValue(Lookup(h, sorted[i].0));
      ret := ret + (k + ":" + v + "\n");
      assert sorted[..i + 1][..i] == sorted[..i];
    }
    assert sorted[..|sorted|] == sorted;
  }

  /** The block a list of headers renders to when every line carries the
      header's own value. */
  function Render(s: seq<Header>): (r: string)
    decreases |s|
  {
    if s == [] then "" else Render(s[..|s| - 1]) + FormatLine(s[|s| - 1].0, s[|s| - 1].1)
  }

  lemma {:induction false} AmzLinesRender(s: seq<Header>, h: seq<Header>)
    requires UniqueNames(h)
    requires forall i :: 0 <= i < |s| ==> s[i] in Items(h)
    ensures AmzLines(s, h) == Render(s)
    decreases |s|
  {
    if s != [] {
      var last := s[|s| - 1];
      var k :| 0 <= k < |h| && Items(h)[k] == last;
      ItemNameSameKey(h[k].0);
      LookupUnique(h, h[k], last.0);
      AmzLinesRender(s[..|s| - 1], h);
    }
  }

  /** Each entry of `s` is an `items()` entry of `h` with an `X-Amz-` name
      that rebuilds to itself. */
  predicate SelectedEntries(s: seq<Header>, h: seq<Header>)
  {
    forall k :: 0 <= k < |s| ==> s[k] in Items(h) && IsAmzName(s[k].0) && ItemName(s[k].0) == s[k].0
  }

  lemma SortedAmzEntries(h: seq<Header>)
    ensures SelectedEntries(Sort(AmzHeaders(h)), h)
  {
    var s := Sort(AmzHeaders(h));
    AmzHeadersSelects(h);
    forall k | 0 <= k < |s| ensures s[k] in Items(h) && IsAmzName(s[k].0) && ItemName(s[k].0) == s[k].0 {
      assert s[k] in multiset(s);
      assert s[k] in multiset(Items(h));
      var j :| 0 <= j < |h| && Items(h)[j] == s[k];
      ItemNameIdempotent(h[j].0);
    }
  }

  /** With unique header names, the block is one `lowercased-name:value\n`
      line per `X-Amz-` header, in sorted order, each with its own value. */
  lemma XAmzStringRenders(h: seq<Header>)
    requires UniqueNames(h)
    ensures XAmzString(h) == Render(Sort(AmzHeaders(h)))
    ensures Sorted(Sort(AmzHeaders(h)))
    ensures forall p :: multiset(Sort(AmzHeaders(h)))[p] == if IsAmzName(p.0) then multiset(Items(h))[p] else 0
  {
    var s := Sort(AmzHeaders(h));
    SortSorted(AmzHeaders(h));
    AmzHeadersSelects(h);
    SortedAmzEntries(h);
    AmzLinesRender(s, h);
  }

  /** `items()` of two orderings of the same headers are two orderings of
      the same entries. */
  lemma ItemsPermutation(h1: seq<Header>, h2: seq<Header>)
    requires multiset(h1) == multiset(h2)
    ensures multiset(Items(h1)) == multiset(Items(h2))
  {
    MapPermutation(h1, h2, Item);
    assert Items(h1) == Map(h1, Item);
    assert Items(h2) == Map(h2, Item);
  }

  lemma AmzHeadersPermutation(h1: seq<Header>, h2: seq<Header>)
    requires multiset(h1) == multiset(h2)
    ensures multiset(AmzHeaders(h1)) == multiset(AmzHeaders(h2))
  {
    ItemsPermutation(h1, h2);
    AmzHeadersSelects(h1);
    AmzHeadersSelects(h2);
    forall p ensures multiset(AmzHeaders(h1))[p] == multiset(AmzHeaders(h2))[p] {
    }
  }

  /** Reordering the header list does not change the block. */
  lemma XAmzOrderIndependent(h1: seq<Header>, h2: seq<Header>)
    requires UniqueNames(h1) && UniqueNames(h2)
    requires multiset(h1) == multiset(h2)
    ensures XAmzString(h1) == XAmzString(h2)
  {
    XAmzStringRenders(h1);
    XAmzStringRenders(h2);
    AmzHeadersPermutation(h1, h2);
    SortOrderIndependent(AmzHeaders(h1), AmzHeaders(h2));
  }

  lemma {:induction false} AmzHeadersConcat(a: seq<Header>, b: seq<Header>)
    ensures AmzHeaders(a + b) == AmzHeaders(a) + AmzHeaders(b)
    decreases |a|
  {
    if a == [] {
      assert a + b == b;
    } else {
      assert (a + b)[1..] == a[1..] + b;
      AmzHeadersConcat(a[1..], b);
    }
  }

  lemma {:induction false} AmzLinesInsert(s: seq<Header>, h: seq<Header>, i: nat, x: Header)
    requires i <= |h| && !IsAmzName(ItemName(x.0))
    requires SelectedEntries(s, h)
    ensures AmzLines(s, h[..i] + [x] + h[i..]) == AmzLines(s, h)
    decreases |s|
  {
    if s != [] {
      var last := s[|s| - 1];
      LookupInsert(h, i, x, last.0);
      AmzLinesInsert(s[..|s| - 1], h, i, x);
    }
  }

  /** A header whose name does not rebuild to an `X-Amz-` name contributes
      nothing, wherever it stands among the others. */
  lemma XAmzIgnoresOtherHeaders(h: seq<Header>, i: nat, x: Header)
    requires i <= |h| && !IsAmzName(ItemName(x.0))
    ensures XAmzString(h[..i] + [x] + h[i..]) == XAmzString(h)
  {
    var a, b := h[..i], h[i..];
    assert h == a + b;
    assert h[..i] + [x] + h[i..] == a + ([x] + b);
    AmzHeadersConcat(a, [x] + b);
    AmzHeadersConcat([x], b);
    AmzHeadersConcat(a, b);
    assert AmzHeaders([x]) == [] by {
      assert [x][1..] == [];
    }
    SortedAmzEntries(h);
    AmzLinesInsert(Sort(AmzHeaders(h)), h, i, x);
  }

  /** `X-Amz-Meta` is selected and rebuilds to itself. */
  lemma MetaName()
    ensures ItemName("X-Amz-Meta") == "X-Amz-Meta" && IsAmzName("X-Amz-Meta")
  {
    assert EnvKey("X-Amz-Meta") == "X_AMZ_META";
    assert "X-Amz-Meta"[..6] == "X-Amz-";
  }

  lemma DateItemName()
    ensures ItemName("x-amz-date") == "X-Amz-Date" && IsAmzName("X-Amz-Date")
  {
    assert EnvKey("x-amz-date") == "X_AMZ_DATE";
    assert Undash("X_AMZ_DATE") == "X-AMZ-DATE";
    assert Title("X-AMZ-DATE") == "X-Amz-Date";
    assert "X-Amz-Date"[..6] == "X-Amz-";
  }

  lemma DateLine()
    ensures AmzLine(("X-Amz-Date", "D"), [("x-amz-date", "D")]) == "x-amz-date:D\n"
  {
    assert NameEq("x-amz-date", "X-Amz-Date") by {
      assert EnvKey("x-amz-date") == "X_AMZ_DATE" == EnvKey("X-Amz-Date");
    }
    LookupHead([("x-amz-date", "D")], "X-Amz-Date");
    assert Lower("X-Amz-Date") == "x-amz-date";
  }

  /** A name sent in lower case is still selected, under its rebuilt name. */
  lemma LowercaseAmzHeader(h: seq<Header>)
    requires h == [("x-amz-date", "D")]
    ensures XAmzString(h) == "x-amz-date:D\n"
  {
    DateItemName();
    var e := ("X-Amz-Date", "D");
    var selected := AmzHeaders(h);
    assert selected == [e] by {
      assert h[1..] == [];
    }
    var sorted := Sort(selected);
    assert sorted == [e];
    DateLine();
    assert AmzLines(sorted, h) == "" + AmzLine(e, h) by {
      assert sorted[..0] == [];
    }
    assert XAmzString(h) == AmzLines(sorted, h);
  }

  lemma MixedCaseItemNames()
    ensures ItemName("X-Amz-B") == "X-Amz-B" && IsAmzName("X-Amz-B")
    ensures ItemName("X-Amz-a") == "X-Amz-A" && IsAmzName("X-Amz-A")
  {
    assert EnvKey("X-Amz-B") == "X_AMZ_B" && Undash("X_AMZ_B") == "X-AMZ-B";
    assert Title("X-AMZ-B") == "X-Amz-B";
    assert EnvKey("X-Amz-a") == "X_AMZ_A" && Undash("X_AMZ_A") == "X-AMZ-A";
    assert Title("X-AMZ-A") == "X-Amz-A";
    assert "X-Amz-B"[..6] == "X-Amz-" && "X-Amz-A"[..6] == "X-Amz-";
  }

  lemma MixedCaseLookups()
    ensures Lookup([("X-Amz-B", "1"), ("X-Amz-a", "2")], "X-Amz-A") == Some("2")
    ensures Lookup([("X-Amz-B", "1"), ("X-Amz-a", "2")], "X-Amz-B") == Some("1")
  {
    assert EnvKey("X-Amz-a") == "X_AMZ_A" == EnvKey("X-Amz-A");
    assert EnvKey("X-Amz-B") == "X_AMZ_B";
    assert EnvKey("X-Amz-B") != EnvKey("X-Amz-A") by {
      assert EnvKey("X-Amz-B")[6] != EnvKey("X-Amz-A")[6];
    }
  }

  lemma MixedCaseSort()
    ensures Sort([("X-Amz-B", "1"), ("X-Amz-A", "2")]) == [("X-Amz-A", "2"), ("X-Amz-B", "1")]
  {
    var b := ("X-Amz-B", "1");
    var a := ("X-Amz-A", "2");
    assert StrLt("X-Amz-A", "X-Amz-B");
    assert !PairLe(b, a) by {
      StrLtAsymmetric("X-Amz-A", "X-Amz-B");
    }
    assert [b, a][1..] == [a];
  }

  lemma MixedCaseLines()
    ensures AmzLine(("X-Amz-A", "2"), [("X-Amz-B", "1"), ("X-Amz-a", "2")]) == "x-amz-a:2\n"
    ensures AmzLine(("X-Amz-B", "1"), [("X-Amz-B", "1"), ("X-Amz-a", "2")]) == "x-amz-b:1\n"
  {
    MixedCaseLookups();
    assert Lower("X-Amz-A") == "x-amz-a";
    assert Lower("X-Amz-B") == "x-amz-b";
  }

  lemma TwoLines(a: Header, b: Header, h: seq<Header>)
    ensures AmzLines([a, b], h) == AmzLine(a, h) + AmzLine(b, h)
  {
    assert [a, b][..1] == [a] && [a][..0] == [];
    assert AmzLines([a], h) == "" + AmzLine(a, h);
  }

  /** Sorting uses the rebuilt names: `X-Amz-a` is reported as `X-Amz-A`
      and so comes before `X-Amz-B`, although `a` follows `B` in byte order. */
  lemma SortedByRebuiltName(h: seq<Header>)
    requires h == [("X-Amz-B", "1"), ("X-Amz-a", "2")]
    ensures XAmzString(h) == "x-amz-a:2\n" + "x-amz-b:1\n"
  {
    var b := ("X-Amz-B", "1");
    var a := ("X-Amz-A", "2");
    MixedCaseItemNames();
    var selected := AmzHeaders(h);
    assert selected == [b, a] by {
      assert h[1..] == [("X-Amz-a", "2")] && h[1..][1..] == [];
    }
    MixedCaseSort();
    var sorted := Sort(selected);
    assert sorted == [a, b];
    MixedCaseLines();
    TwoLines(a, b, h);
    assert XAmzString(h) == AmzLines(sorted, h);
  }

  lemma SortTwoEntries(one: Header, two: Header)
    requires one.0 == two.0 && StrLt(one.1, two.1)
    ensures Sort([one, two]) == [one, two] && Sort([two, one]) == [one, two]
  {
    assert [one, two][1..] == [two] && [two, one][1..] == [one];
    assert !PairLe(two, one) by {
      StrLtAsymmetric(one.1, two.1);
      StrLtIrreflexive(one.0);
    }
  }

  /** A list already made of selected `items()` entries is kept whole. */
  lemma {:induction false} AmzHeadersKeepsSelected(h: seq<Header>)
    requires forall k :: 0 <= k < |h| ==> IsAmzName(h[k].0) && ItemName(h[k].0) == h[k].0
    ensures AmzHeaders(h) == h
    decreases |h|
  {
    if h != [] {
      AmzHeadersKeepsSelected(h[1..]);
    }
  }

  lemma RepeatedBlock(h: seq<Header>, one: Header, two: Header)
    requires one.0 == two.0 && IsAmzName(one.0) && ItemName(one.0) == one.0 && StrLt(one.1, two.1)
    requires h == [one, two] || h == [two, one]
    ensures XAmzString(h) == FormatLine(one.0, h[0].1) + FormatLine(one.0, h[0].1)
  {
    LookupHead(h, one.0);
    AmzHeadersKeepsSelected(h);
    SortTwoEntries(one, two);
    var s := [one, two];
    assert s[..1] == [one] && [one][..0] == [];
    assert AmzLines([one], h) == AmzLine(one, h) by {
      assert AmzLines([one], h) == "" + AmzLine(one, h);
    }
    assert AmzLines(s, h) == AmzLines([one], h) + AmzLine(two, h);
    assert AmzLine(one, h) == FormatLine(one.0, h[0].1) == AmzLine(two, h);
  }

  lemma MetaLinesInOrder()
    ensures FormatLine("X-Amz-Meta", "1") + FormatLine("X-Amz-Meta", "1") == "x-amz-meta:1\nx-amz-meta:1\n"
  {
    assert FormatLine("X-Amz-Meta", "1") == "x-amz-meta:1\n";
  }

  lemma MetaLinesReversed()
    ensures FormatLine("X-Amz-Meta", "2") + FormatLine("X-Amz-Meta", "2") == "x-amz-meta:2\nx-amz-meta:2\n"
  {
    assert FormatLine("X-Amz-Meta", "2") == "x-amz-meta:2\n";
  }

  lemma MetaInOrder()
    ensures XAmzString([("X-Amz-Meta", "1"), ("X-Amz-Meta", "2")]) == "x-amz-meta:1\nx-amz-meta:1\n"
  {
    MetaName();
    assert StrLt("1", "2");
    RepeatedBlock([("X-Amz-Meta", "1"), ("X-Amz-Meta", "2")], ("X-Amz-Meta", "1"), ("X-Amz-Meta", "2"));
    MetaLinesInOrder();
  }

  lemma MetaReversed()
    ensures XAmzString([("X-Amz-Meta", "2"), ("X-Amz-Meta", "1")]) == "x-amz-meta:2\nx-amz-meta:2\n"
  {
    MetaName();
    assert StrLt("1", "2");
    RepeatedBlock([("X-Amz-Meta", "2"), ("X-Amz-Meta", "1")], ("X-Amz-Meta", "1"), ("X-Amz-Meta", "2"));
    MetaLinesReversed();
  }

  /** With a repeated header name each line takes the value `get` finds
      first, so there the block does depend on the order of the list. A
      WSGI environ holds one entry per name, so this needs a header list
      no environ produces. */
  lemma XAmzRepeatedHeader()
    ensures XAmzString([("X-Amz-Meta", "1"), ("X-Amz-Meta", "2")]) == "x-amz-meta:1\nx-amz-meta:1\n"
    ensures XAmzString([("X-Amz-Meta", "2"), ("X-Amz-Meta", "1")]) == "x-amz-meta:2\nx-amz-meta:2\n"
  {
    MetaInOrder();
    MetaReversed();
  }

  // ----- generate_auth_string -----

  /** `'{}\n{}\n{}\n{}\n{}{}'.format(method, md5, type, date, amz, path)`. */
  function StringToSign(verb: string, md5: string, ctype: string, date: string, amz: string, path: string): (raw: string)
    ensures |raw| == |verb| + |md5| + |ctype| + |date| + |amz| + |path| + 4
    ensures verb + "\n" <= raw
    ensures raw[|raw| - |path|..] == path
  {
    verb + "\n" + md5 + "\n" + ctype + "\n" + date + "\n" + amz + path
  }

  lemma JoinCons(x: string, rest: seq<string>, c: char)
    requires |rest| >= 1
    ensures Join([x] + rest, c) == x + [c] + Join(rest, c)
  {
    assert ([x] + rest)[1..] == rest;
  }

  /** The four leading fields can be read back from the string-to-sign when
      none of them holds a newline; the rest is the headers block and path. */
  lemma StringToSignFields(verb: string, md5: string, ctype: string, date: string, amz: string, path: string)
    requires '\n' !in verb && '\n' !in md5 && '\n' !in ctype && '\n' !in date
    ensures Split(StringToSign(verb, md5, ctype, date, amz, path), '\n') ==
      [verb, md5, ctype, date] + Split(amz + path, '\n')
  {
    var rest := Split(amz + path, '\n');
    var fields := [verb, md5, ctype, date] + rest;
    var nl := "\n";
    JoinCons(date, rest, '\n');
    assert [date] + rest == fields[3..];
    var j3 := date + nl + (amz + path);
    assert Join(fields[3..], '\n') == j3;
    JoinCons(ctype, fields[3..], '\n');
    assert [ctype] + fields[3..] == fields[2..];
    var j2 := ctype + nl + j3;
    assert Join(fields[2..], '\n') == j2;
    JoinCons(md5, fields[2..], '\n');
    assert [md5] + fields[2..] == fields[1..];
    var j1 := md5 + nl + j2;
    JoinCons(verb, fields[1..], '\n');
    assert [verb] + fields[1..] == fields;
    assert Join(fields, '\n') == verb + nl + j1;
    assert verb + nl + j1 == StringToSign(verb, md5, ctype, date, amz, path);
    forall i | 0 <= i < |fields| ensures '\n' !in fields[i] {
      if i >= 4 {
        assert fields[i] == rest[i - 4];
      }
    }
    SplitJoin(fields, '\n');
  }

  /** Different method, Content-Md5, Content-Type or date give different
      strings to sign. */
  lemma StringToSignInjective(v1: string, m1: string, c1: string, d1: string, a1: string, p1: string,
                              v2: string, m2: string, c2: string, d2: string, a2: string, p2: string)
    requires '\n' !in v1 && '\n' !in m1 && '\n' !in c1 && '\n' !in d1
    requires '\n' !in v2 && '\n' !in m2 && '\n' !in c2 && '\n' !in d2
    requires StringToSign(v1, m1, c1, d1, a1, p1) == StringToSign(v2, m2, c2, d2, a2, p2)
    ensures v1 == v2 && m1 == m2 && c1 == c2 && d1 == d2 && a1 + p1 == a2 + p2
  {
    StringToSignFields(v1, m1, c1, d1, a1, p1);
    StringToSignFields(v2, m2, c2, d2, a2, p2);
    var r1 := Split(a1 + p1, '\n');
    var r2 := Split(a2 + p2, '\n');
    assert [v1, m1, c1, d1] + r1 == [v2, m2, c2, d2] + r2;
    assert ([v1, m1, c1, d1] + r1)[4..] == r1;
    assert ([v2, m2, c2, d2] + r2)[4..] == r2;
    assert r1 == r2;
  }
}

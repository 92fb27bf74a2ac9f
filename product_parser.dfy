/** The product field of a persisted order row: ';'-separated entries, each read as
    name and price the way the legacy code's two regular expressions do. The reading is
    lenient: a malformed entry never fails, it degrades to an empty name or a zero price. */
module ProductParser {
  import opened Results
  import opened Numerals
  import opened ProductTable

  // ---------------------------------------------------------------------------
  // Character positions

  function FirstIndex(s: string, c: char): (i: nat)
    requires c in s
    ensures i < |s| && s[i] == c && c !in s[..i]
  {
    if s[0] == c then 0
    else
      var i := 1 + FirstIndex(s[1..], c);
      assert s[..i] == [s[0]] + s[1..][..i - 1];
      i
  }

  function LastIndex(s: string, c: char): (i: nat)
    requires c in s
    ensures i < |s| && s[i] == c && c !in s[i + 1..]
  {
    if s[|s| - 1] == c then |s| - 1
    else
      assert c in s[..|s| - 1] by {
        var k :| 0 <= k < |s| && s[k] == c;
        assert s[..|s| - 1][k] == c;
      }
      var i := LastIndex(s[..|s| - 1], c);
      assert s[i + 1..] == s[..|s| - 1][i + 1..] + [s[|s| - 1]];
      i
  }

  /** A position holding c with no c after it is the last one. */
  lemma LastIndexAt(s: string, c: char, i: nat)
    requires i < |s| && s[i] == c && c !in s[i + 1..]
    ensures LastIndex(s, c) == i
  {
  }

  /** A position holding c with no c before it is the first one. */
  lemma FirstIndexAt(s: string, c: char, i: nat)
    requires i < |s| && s[i] == c && c !in s[..i]
    ensures FirstIndex(s, c) == i
  {
  }

  /** s with every ':' removed (Ruby: delete(':')). */
  function DeleteColons(s: string): (r: string)
    ensures ':' !in r
    ensures ':' !in s ==> r == s
  {
    if |s| == 0 then []
    else (if s[0] == ':' then [] else [s[0]]) + DeleteColons(s[1..])
  }

  lemma {:induction false} DeleteColonsAppend(a: string, b: string)
    ensures DeleteColons(a + b) == DeleteColons(a) + DeleteColons(b)
  {
    if |a| > 0 {
      assert (a + b)[1..] == a[1..] + b;
      DeleteColonsAppend(a[1..], b);
    } else {
      assert a + b == b;
    }
  }

  // ---------------------------------------------------------------------------
  // Splitting the field at ';' (Ruby: String#split(';'))

  /** Every ';'-separated field of s, empty ones included. */
  function Fields(s: string): (r: seq<string>)
    ensures |r| >= 1
    ensures forall i :: 0 <= i < |r| ==> ';' !in r[i]
    decreases |s|
  {
    if ';' !in s then [s]
    else
      var i := FirstIndex(s, ';');
      [s[..i]] + Fields(s[i + 1..])
  }

  /** Fields put back together with ';' between them. */
  function Join(fs: seq<string>): string
    requires |fs| >= 1
  {
    if |fs| == 1 then fs[0] else fs[0] + ";" + Join(fs[1..])
  }

  /** Splitting loses nothing: joining the fields gives back the text. */
  lemma {:induction false} JoinFields(s: string)
    ensures Join(Fields(s)) == s
    decreases |s|
  {
    if ';' in s {
      var i := FirstIndex(s, ';');
      var fs, rest := Fields(s), Fields(s[i + 1..]);
      assert fs == [s[..i]] + rest;
      assert fs[1..] == rest;
      JoinFields(s[i + 1..]);
      assert Join(fs) == s[..i] + ";" + Join(rest);
      assert s == s[..i] + ";" + s[i + 1..];
    }
  }

  /** Joining fields that hold no ';' and splitting again gives back the same fields. */
  lemma {:induction false} FieldsJoin(fs: seq<string>)
    requires |fs| >= 1
    requires forall i :: 0 <= i < |fs| ==> ';' !in fs[i]
    ensures Fields(Join(fs)) == fs
  {
    if |fs| > 1 {
      var s := Join(fs);
      var rest := Join(fs[1..]);
      assert s == fs[0] + (";" + rest);
      assert s[|fs[0]|] == ';' && s[..|fs[0]|] == fs[0];
      assert FirstIndex(s, ';') == |fs[0]|;
      assert s[|fs[0]| + 1..] == rest;
      FieldsJoin(fs[1..]);
    }
  }

  /** fs without its trailing empty fields. */
  function DropTrailingEmpty(fs: seq<string>): (r: seq<string>)
    ensures |r| <= |fs| && r == fs[..|r|]
    ensures forall i :: |r| <= i < |fs| ==> fs[i] == ""
    ensures r == [] || r[|r| - 1] != ""
  {
    if |fs| > 0 && fs[|fs| - 1] == "" then DropTrailingEmpty(fs[..|fs| - 1]) else fs
  }

  /** String#split(';') with no limit: the fields, trailing empty ones suppressed. */
  function Split(s: string): (entries: seq<string>)
    ensures forall i :: 0 <= i < |entries| ==> ';' !in entries[i]
  {
    DropTrailingEmpty(Fields(s))
  }

  /** The empty field has no entries. */
  lemma SplitEmpty()
    ensures Split("") == []
  {
    assert Fields("") == [""];
  }

  // ---------------------------------------------------------------------------
  // Reading one entry (Ruby: match(/.*:/) for the name, match(/:.*/) for the price)

  /** The line of e that holds its first ':'. A regular expression '.' does not match '\n',
      so both patterns match inside this line: ':.*' from that first ':' to the end of the
      line, and '.*:' (whose leftmost match starts where this line starts, as no earlier
      line holds a ':') from the start of the line to its last ':'. */
  function ColonLine(e: string): (line: string)
    requires ':' in e
    ensures ':' in line && '\n' !in line
    ensures '\n' !in e ==> line == e
  {
    var f := FirstIndex(e, ':');
    var start, stop := LineStart(e, f), LineStop(e, f);
    LineAround(e, f, start, stop);
    e[start..stop]
  }

  /** The stretch between a line start and a line stop around a ':' is one line holding it. */
  lemma LineAround(e: string, f: nat, start: nat, stop: nat)
    requires start <= f < stop <= |e| && e[f] == ':'
    requires '\n' !in e[start..f] && '\n' !in e[f..stop]
    requires '\n' !in e ==> start == 0 && stop == |e|
    ensures ':' in e[start..stop] && '\n' !in e[start..stop]
    ensures '\n' !in e ==> e[start..stop] == e
  {
    NoBreakJoin(e, start, f, stop);
    assert e[start..stop][f - start] == ':';
  }

  /** Where the line holding position f starts: just after the last line break before f. */
  function LineStart(s: string, f: nat): (start: nat)
    requires f <= |s|
    ensures start <= f && '\n' !in s[start..f]
    ensures '\n' !in s ==> start == 0
  {
    if '\n' in s[..f] then
      var b := LastIndex(s[..f], '\n');
      assert s[b + 1..f] == s[..f][b + 1..];
      b + 1
    else
      assert s[0..f] == s[..f];
      0
  }

  /** Where the line holding position f stops: at the first line break from f on. */
  function LineStop(s: string, f: nat): (stop: nat)
    requires f <= |s|
    ensures f <= stop <= |s| && '\n' !in s[f..stop]
    ensures stop < |s| ==> s[stop] == '\n'
    ensures '\n' !in s ==> stop == |s|
  {
    if '\n' in s[f..] then
      var b := FirstIndex(s[f..], '\n');
      assert s[f..f + b] == s[f..][..b];
      f + b
    else f + |s[f..]|
  }

  /** Two adjacent stretches without a line break make one. */
  lemma NoBreakJoin(s: string, a: nat, b: nat, c: nat)
    requires a <= b <= c <= |s|
    requires '\n' !in s[a..b] && '\n' !in s[b..c]
    ensures '\n' !in s[a..c]
  {
    assert s[a..c] == s[a..b] + s[b..c];
  }

  /** The text matched by '.*:' in an entry with a ':': its colon line up to its last ':'. */
  function NameMatch(e: string): string
    requires ':' in e
  {
    var line := ColonLine(e);
    line[..LastIndex(line, ':') + 1]
  }

  /** The text matched by ':.*' in an entry with a ':': its colon line from its first ':'. */
  function PriceMatch(e: string): string
    requires ':' in e
  {
    var line := ColonLine(e);
    line[FirstIndex(line, ':')..]
  }

  /** The product name of an entry: the text matched by '.*:' with its colons deleted;
      no match (no ':' at all) gives the empty name. */
  function EntryName(e: string): string
  {
    if ':' in e then DeleteColons(NameMatch(e)) else ""
  }

  /** The price of an entry: the text matched by ':.*' with its colons deleted, read by
      String#to_f; no match gives 0. */
  function EntryPrice(e: string): real
  {
    if ':' in e then ToF(DeleteColons(PriceMatch(e))) else 0.0
  }

  /** A name never holds a ':' or a line break, nor a ';' the entry did not hold. */
  lemma EntryNameClean(e: string)
    ensures ':' !in EntryName(e) && '\n' !in EntryName(e)
    ensures ';' !in e ==> ';' !in EntryName(e)
  {
    if ':' in e {
      var m := NameMatch(e);
      DeleteColonsKeeps(m, '\n');
      DeleteColonsKeeps(m, ';');
    }
  }

  /** Deleting colons adds no other character. */
  lemma {:induction false} DeleteColonsKeeps(s: string, c: char)
    ensures c !in s ==> c !in DeleteColons(s)
  {
    if |s| > 0 && c !in s {
      assert c !in s[1..];
      DeleteColonsKeeps(s[1..], c);
    }
  }

  // ---------------------------------------------------------------------------
  // The whole field

  /** The table built by storing each entry in turn, a later entry overwriting an earlier
      one with the same name. */
  function Collect(entries: seq<string>): Products
  {
    if |entries| == 0 then map[]
    else
      var last := entries[|entries| - 1];
      Collect(entries[..|entries| - 1])[EntryName(last) := EntryPrice(last)]
  }

  /** to_products: split the field, then store every entry's name and price in a fresh table. */
  method ToProducts(field: string) returns (products: Products)
    ensures products == Collect(Split(field))
  {
    var entries := Split(field);
    products := map[];
    var i := 0;
    while i < |entries|
      invariant 0 <= i <= |entries|
      invariant products == Collect(entries[..i])
    {
      var entry := entries[i];
      assert entries[..i + 1][..i] == entries[..i];
      products := products[EntryName(entry) := EntryPrice(entry)];
      i := i + 1;
    }
    assert entries[..i] == entries;
  }

  /** Each entry contributes exactly its name as a key, and nothing else becomes a key. */
  lemma CollectKeys(entries: seq<string>)
    ensures Collect(entries).Keys == set i | 0 <= i < |entries| :: EntryName(entries[i])
  {
    var keys := set i | 0 <= i < |entries| :: EntryName(entries[i]);
    forall k | k in Collect(entries) ensures k in keys {
      var i := CollectKeyFrom(entries, k);
    }
    forall i | 0 <= i < |entries| ensures EntryName(entries[i]) in Collect(entries) {
      CollectHasName(entries, i);
    }
  }

  /** The entry a key of the table comes from. */
  lemma {:induction false} CollectKeyFrom(entries: seq<string>, k: string) returns (i: nat)
    requires k in Collect(entries)
    ensures i < |entries| && EntryName(entries[i]) == k
  {
    var last := entries[|entries| - 1];
    if EntryName(last) == k {
      i := |entries| - 1;
    } else {
      var init := entries[..|entries| - 1];
      i := CollectKeyFrom(init, k);
      assert init[i] == entries[i];
    }
  }

  /** Every entry's name is a key of the table. */
  lemma {:induction false} CollectHasName(entries: seq<string>, i: nat)
    requires i < |entries|
    ensures EntryName(entries[i]) in Collect(entries)
  {
    if i < |entries| - 1 {
      var init := entries[..|entries| - 1];
      assert init[i] == entries[i];
      CollectHasName(init, i);
    }
  }

  /** The price stored under a name is the price of the last entry with that name. */
  lemma {:induction false} CollectLastWins(entries: seq<string>, i: nat)
    requires i < |entries|
    requires forall j :: i < j < |entries| ==> EntryName(entries[j]) != EntryName(entries[i])
    ensures EntryName(entries[i]) in Collect(entries)
    ensures Collect(entries)[EntryName(entries[i])] == EntryPrice(entries[i])
  {
    var init := entries[..|entries| - 1];
    if i < |entries| - 1 {
      assert init[i] == entries[i];
      forall j | i < j < |init| ensures EntryName(init[j]) != EntryName(init[i]) {
        assert init[j] == entries[j];
      }
      CollectLastWins(init, i);
    }
  }

  /** An entry without a ':' reads as the empty name with price 0. */
  lemma EntryWithoutColon(e: string)
    requires ':' !in e
    ensures EntryName(e) == "" && EntryPrice(e) == 0.0
  {
  }

  /** On a one-line entry with a ':' the name is read up to its last ':'. */
  lemma NameOneLine(e: string)
    requires ':' in e && '\n' !in e
    ensures EntryName(e) == DeleteColons(e[..LastIndex(e, ':') + 1])
  {
    OneLineMatches(e);
  }

  /** On a one-line entry with a ':' the price is read from its first ':'. */
  lemma PriceOneLine(e: string)
    requires ':' in e && '\n' !in e
    ensures EntryPrice(e) == ToF(DeleteColons(e[FirstIndex(e, ':')..]))
  {
    OneLineMatches(e);
  }

  /** On a one-line entry both patterns match inside the whole entry. */
  lemma OneLineMatches(e: string)
    requires ':' in e && '\n' !in e
    ensures NameMatch(e) == e[..LastIndex(e, ':') + 1]
    ensures PriceMatch(e) == e[FirstIndex(e, ':')..]
  {
    assert ColonLine(e) == e;
  }

  /** A well-formed entry "name:price" reads as that name and that price text. */
  lemma EntryWellFormed(name: string, price: string)
    requires ':' !in name && '\n' !in name
    requires ':' !in price && '\n' !in price
    ensures EntryName(name + ":" + price) == name
    ensures EntryPrice(name + ":" + price) == ToF(price)
  {
    var e := name + ":" + price;
    var at := OneColonIndex(name, price);
    OneColonParts(name, price);
    NameOneLine(e);
    PriceOneLine(e);
  }

  /** Where the only ':' of "name:price" is. */
  lemma OneColonIndex(name: string, price: string) returns (at: nat)
    requires ':' !in name && ':' !in price
    requires '\n' !in name && '\n' !in price
    ensures '\n' !in name + ":" + price && ':' in name + ":" + price
    ensures at == |name|
    ensures FirstIndex(name + ":" + price, ':') == at
    ensures LastIndex(name + ":" + price, ':') == at
  {
    var e := name + ":" + price;
    at := |name|;
    assert e[at] == ':' && e[..at] == name && e[at + 1..] == price;
    LastIndexAt(e, ':', at);
    FirstIndexAt(e, ':', at);
  }

  /** The name and price texts of "name:price" with their colons deleted. */
  lemma OneColonParts(name: string, price: string)
    requires ':' !in name && ':' !in price
    ensures DeleteColons((name + ":" + price)[..|name| + 1]) == name
    ensures DeleteColons((name + ":" + price)[|name|..]) == price
  {
    var e := name + ":" + price;
    assert e[..|name| + 1] == name + ":" + [];
    DeleteColonsSkip(name, []);
    assert e[|name|..] == [] + ":" + price;
    DeleteColonsSkip([], price);
  }

  /** With two colons the name takes everything up to the last one and the price everything
      after the first one, colons deleted: "a:1:2" reads as name "a1" and price text "12". */
  lemma EntryTwoColons(x: string, y: string, z: string)
    requires ':' !in x && ':' !in y && ':' !in z
    requires '\n' !in x && '\n' !in y && '\n' !in z
    ensures EntryName(x + ":" + y + ":" + z) == x + y
    ensures EntryPrice(x + ":" + y + ":" + z) == ToF(y + z)
  {
    var e := x + ":" + y + ":" + z;
    var f, l := TwoColonsIndices(x, y, z);
    TwoColonsParts(x, y, z);
    NameOneLine(e);
    PriceOneLine(e);
  }

  /** The name and price texts of "x:y:z" with their colons deleted. */
  lemma TwoColonsParts(x: string, y: string, z: string)
    requires ':' !in x && ':' !in y && ':' !in z
    ensures DeleteColons((x + ":" + y + ":" + z)[..|x| + |y| + 2]) == x + y
    ensures DeleteColons((x + ":" + y + ":" + z)[|x|..]) == y + z
  {
    TwoColonsName(x, y, z);
    TwoColonsPrice(x, y, z);
  }

  lemma TwoColonsName(x: string, y: string, z: string)
    requires ':' !in x && ':' !in y
    ensures DeleteColons((x + ":" + y + ":" + z)[..|x| + |y| + 2]) == x + y
  {
    var e := x + ":" + y + ":" + z;
    assert e[..|x| + |y| + 2] == (x + ":" + y) + ":" + [];
    DeleteColonsSkip(x + ":" + y, []);
    DeleteColonsSkip(x, y);
  }

  lemma TwoColonsPrice(x: string, y: string, z: string)
    requires ':' !in y && ':' !in z
    ensures DeleteColons((x + ":" + y + ":" + z)[|x|..]) == y + z
  {
    var e := x + ":" + y + ":" + z;
    assert e[|x|..] == [] + ":" + (y + ":" + z);
    DeleteColonsSkip([], y + ":" + z);
    DeleteColonsSkip(y, z);
  }

  /** Where the first and the last ':' of "x:y:z" are. */
  lemma TwoColonsIndices(x: string, y: string, z: string) returns (f: nat, l: nat)
    requires ':' !in x && ':' !in y && ':' !in z
    requires '\n' !in x && '\n' !in y && '\n' !in z
    ensures '\n' !in x + ":" + y + ":" + z && ':' in x + ":" + y + ":" + z
    ensures f == |x| && l == |x| + 1 + |y|
    ensures FirstIndex(x + ":" + y + ":" + z, ':') == f
    ensures LastIndex(x + ":" + y + ":" + z, ':') == l
  {
    var e := x + ":" + y + ":" + z;
    f, l := |x|, |x| + 1 + |y|;
    assert e == ((x + ":") + (y + ":")) + z;
    assert e[l] == ':' && e[l + 1..] == z;
    LastIndexAt(e, ':', l);
    assert e == x + ((":" + y) + (":" + z));
    assert e[f] == ':' && e[..f] == x;
    FirstIndexAt(e, ':', f);
  }

  /** Deleting colons around one ':' deletes it and treats each side on its own. */
  lemma DeleteColonsSkip(a: string, b: string)
    ensures DeleteColons(a + ":" + b) == DeleteColons(a) + DeleteColons(b)
  {
    DeleteColonsAppend(a + ":", b);
    DeleteColonsAppend(a, ":");
    DeleteColonsColon();
  }

  lemma DeleteColonsColon()
    ensures DeleteColons(":") == []
  {
    assert ":"[1..] == [];
  }

  /** Every key the field yields is free of ':', ';' and line breaks. */
  lemma KeysAreClean(field: string)
    ensures forall k :: k in Collect(Split(field)) ==> ':' !in k && ';' !in k && '\n' !in k
  {
    var entries := Split(field);
    CollectKeys(entries);
    forall i | 0 <= i < |entries| ensures ':' !in EntryName(entries[i]) && ';' !in EntryName(entries[i]) && '\n' !in EntryName(entries[i]) {
      EntryNameClean(entries[i]);
    }
  }

  /** The shape of the example field "book:20.00;pen:1.00": two well-formed entries with
      different names give exactly those two products. */
  lemma TwoEntryField(n1: string, p1: string, n2: string, p2: string)
    requires ':' !in n1 && ';' !in n1 && '\n' !in n1 && ':' !in p1 && ';' !in p1 && '\n' !in p1
    requires ':' !in n2 && ';' !in n2 && '\n' !in n2 && ':' !in p2 && ';' !in p2 && '\n' !in p2
    requires n1 != n2
    ensures Collect(Split(n1 + ":" + p1 + ";" + n2 + ":" + p2)) == map[n1 := ToF(p1), n2 := ToF(p2)]
  {
    var e1, e2 := n1 + ":" + p1, n2 + ":" + p2;
    assert n1 + ":" + p1 + ";" + n2 + ":" + p2 == e1 + ";" + e2;
    assert ';' !in e1 && ';' !in e2 && e2 != "";
    SplitTwo(e1, e2);
    EntryWellFormed(n1, p1);
    EntryWellFormed(n2, p2);
    CollectTwo(e1, e2);
  }

  /** Two entries joined by ';' split back into those two entries. */
  lemma SplitTwo(e1: string, e2: string)
    requires ';' !in e1 && ';' !in e2 && e2 != ""
    ensures Split(e1 + ";" + e2) == [e1, e2]
  {
    assert Join([e1, e2]) == e1 + ";" + Join([e2]);
    SplitJoin([e1, e2]);
  }

  lemma CollectTwo(a: string, b: string)
    ensures Collect([a, b]) == map[EntryName(a) := EntryPrice(a), EntryName(b) := EntryPrice(b)]
  {
    assert [a, b][..1] == [a] && [a][..0] == [];
    assert Collect([a]) == map[EntryName(a) := EntryPrice(a)];
    assert Collect([a, b]) == Collect([a])[EntryName(b) := EntryPrice(b)];
  }

  /** Joining entries that hold no ';', the last one non-empty, and splitting again gives them back. */
  lemma SplitJoin(entries: seq<string>)
    requires |entries| >= 1 && entries[|entries| - 1] != ""
    requires forall i :: 0 <= i < |entries| ==> ';' !in entries[i]
    ensures Split(Join(entries)) == entries
  {
    FieldsJoin(entries);
  }
}

/**
 `ConvertMap` of python/lang_convert/langconv.py: the prefix table built from a dictionary.
 */
module ConvertTable {
  import opened Segmentation
  import opened MachineStep

  /** Lexicographic order of strings, the order of Python's `sorted`. */
  predicate Less(a: string, b: string) {
    b != "" && (a == "" || a[0] < b[0] || (a[0] == b[0] && Less(a[1..], b[1..])))
  }

  lemma {:induction false} LessTransitive(a: string, b: string, c: string)
    requires Less(a, b) && Less(b, c)
    ensures Less(a, c)
  {
    if a != "" && a[0] == b[0] == c[0] {
      LessTransitive(a[1..], b[1..], c[1..]);
    }
  }

  lemma {:induction false} LessTotal(a: string, b: string)
    ensures Less(a, b) || a == b || Less(b, a)
    ensures !(Less(a, b) && Less(b, a)) && !Less(a, a)
  {
    if a != "" && b != "" {
      LessTotal(a[1..], b[1..]);
      LessTotal(a[1..], a[1..]);
      assert a == [a[0]] + a[1..] && b == [b[0]] + b[1..];
    } else if a != "" {
      LessTotal(a[1..], a[1..]);
    }
  }

  /** A proper prefix comes before its extensions: the fact the table builder relies on. */
  lemma {:induction false} PrefixIsLess(p: string, k: string)
    requires |p| < |k| && p == k[..|p|]
    ensures Less(p, k)
  {
    if p != "" {
      assert p[1..] == k[1..][..|p| - 1];
      PrefixIsLess(p[1..], k[1..]);
    }
  }

  ghost predicate IsSorted(ks: seq<string>) {
    forall i, j :: 0 <= i < j < |ks| ==> Less(ks[i], ks[j])
  }

  method Least(keys: set<string>) returns (least: string)
    requires keys != {}
    ensures least in keys
    ensures forall k :: k in keys ==> k == least || Less(least, k)
  {
    least :| least in keys;
    var rest := keys - {least};
    while rest != {}
      invariant least in keys && rest <= keys
      invariant forall k :: k in keys - rest ==> k == least || Less(least, k)
      decreases rest
    {
      var k :| k in rest;
      LessTotal(k, least);
      if Less(k, least) {
        forall q | q in keys - rest
          ensures Less(k, q)
        {
          if q != least {
            LessTransitive(k, least, q);
          }
        }
        least := k;
      }
      rest := rest - {k};
    }
  }

  method Sorted(keys: set<string>) returns (ks: seq<string>)
    ensures IsSorted(ks)
    ensures forall k :: k in ks <==> k in keys
  {
    ks := [];
    var rest := keys;
    while rest != {}
      invariant rest <= keys
      invariant IsSorted(ks)
      invariant forall k :: k in ks <==> k in keys - rest
      invariant forall k, r :: k in ks && r in rest ==> Less(k, r)
      decreases rest
    {
      var k := Least(rest);
      LessTotal(k, k);
      ks := ks + [k];
      rest := rest - {k};
    }
  }

  ghost function KeySet(keys: seq<string>): set<string> { set k | k in keys }

  /** p is a non-empty proper prefix of some key in `keys`. */
  ghost predicate StemIn(keys: set<string>, p: string) {
    p != "" && exists k :: k in keys && |p| < |k| && p == k[..|p|]
  }

  /** What `have_child` holds after the keys in `seen` have been visited. */
  ghost predicate ChildrenOf(haveChild: map<string, bool>, seen: set<string>) {
    && (forall k :: k in haveChild <==> k in seen || StemIn(seen, k))
    && (forall k :: k in haveChild ==> (haveChild[k] <==> StemIn(seen, k)))
  }

  ghost predicate MarkedUpTo(haveChild: map<string, bool>, marked: map<string, bool>, key: string, n: nat) {
    && (forall k :: k in marked <==> k in haveChild || (1 <= |k| < n && |k| <= |key| && k == key[..|k|]))
    && (forall k :: k in marked ==>
      (marked[k] <==> (k in haveChild && haveChild[k]) || (1 <= |k| < n && |k| <= |key| && k == key[..|k|])))
  }

  /** The inner loop over the proper prefixes of one key. */
  method MarkPrefixes(haveChild: map<string, bool>, key: string) returns (marked: map<string, bool>)
    ensures MarkedUpTo(haveChild, marked, key, |key|)
  {
    marked := haveChild;
    if |key| > 1 {
      for i := 1 to |key|
        invariant MarkedUpTo(haveChild, marked, key, i)
      {
        marked := marked[key[..i] := true];
      }
    }
  }

  /** The first loop: every proper prefix is marked, then the key itself is cleared. */
  method FindChildren(keys: seq<string>) returns (haveChild: map<string, bool>)
    requires IsSorted(keys)
    ensures ChildrenOf(haveChild, KeySet(keys))
  {
    haveChild := map[];
    for n := 0 to |keys|
      invariant ChildrenOf(haveChild, KeySet(keys[..n]))
    {
      var key := keys[n];
      var marked := MarkPrefixes(haveChild, key);
      NotYetAStem(keys, n);
      assert KeySet(keys[..n + 1]) == KeySet(keys[..n]) + {key};
      haveChild := marked[key := false];
    }
    assert keys[..|keys|] == keys;
  }

  class ConvertMap {
    const name: string
    var entries: Table
    ghost var dictionary: Dictionary

    ghost predicate Valid()
      reads this
    {
      TableFor(entries, dictionary)
    }

    constructor (name: string, mapping: Dictionary)
      ensures Valid() && dictionary == mapping && this.name == name
    {
      this.name := name;
      entries := map[];
      dictionary := map[];
      new;
      if |mapping| > 0 {
        SetConvertMap(mapping);
      }
    }

    method SetConvertMap(mapping: Dictionary)
      modifies this
      ensures Valid() && dictionary == mapping
    {
      var keys := Sorted(mapping.Keys);
      var haveChild := FindChildren(keys);
      assert KeySet(keys) == mapping.Keys;
      var convertMap: Table := map[];
      var all := Sorted(haveChild.Keys);
      for n := 0 to |all|
        invariant forall k :: k in convertMap <==> k in all[..n]
        invariant forall k :: k in convertMap ==>
          k in haveChild && convertMap[k] == Entry(k in mapping, haveChild[k], if k in mapping then mapping[k] else "")
      {
        var key := all[n];
        assert key in all;
        convertMap := convertMap[key := Entry(key in mapping, haveChild[key], if key in mapping then mapping[key] else "")];
      }
      assert all[..|all|] == all;
      TableFromChildren(convertMap, haveChild, mapping);
      entries := convertMap;
      dictionary := mapping;
    }

    function Get(k: string): Node
      reads this
    {
      Lookup(entries, k)
    }
  }

  /** In sorted order a key is visited before anything it is a proper prefix of. */
  lemma NotYetAStem(keys: seq<string>, n: nat)
    requires IsSorted(keys) && n < |keys|
    ensures !StemIn(KeySet(keys[..n + 1]), keys[n])
  {
    var seen := KeySet(keys[..n + 1]);
    if StemIn(seen, keys[n]) {
      var k :| k in seen && |keys[n]| < |k| && keys[n] == k[..|keys[n]|];
      var j :| 0 <= j <= n && keys[j] == k;
      PrefixIsLess(keys[n], k);
      LessTotal(keys[n], k);
      assert false;
    }
  }

  lemma TableFromChildren(table: Table, haveChild: map<string, bool>, m: Dictionary)
    requires ChildrenOf(haveChild, m.Keys)
    requires table.Keys == haveChild.Keys
    requires forall k :: k in table ==>
      table[k] == Entry(k in m, haveChild[k], if k in m then m[k] else "")
    ensures TableFor(table, m)
  {
  }

  /**
   The table's domain is the keys and the non-empty proper prefixes of keys, a lookup tells them
   apart, and so no machine fed through it meets an error or an unmatched switch.
   */
  lemma TableMeaning(table: Table, m: Dictionary, k: string)
    requires TableFor(table, m) && k != ""
    ensures k in table <==> exists key :: key in m && |k| <= |key| && k == key[..|k|]
    ensures k in table ==> (table[k].isTail <==> k in m) && (table[k].haveChild <==> IsStem(m, k))
    ensures Lookup(table, k).Cond() != ERROR && Lookup(table, k).Cond() != UNMATCHED_SWITCH
    ensures Lookup(table, k).toWord == Translate(m, k)
  {
    LookupConditions(table, m, k);
    assert EntryFor(table, m, k);
    assert k == k[..|k|];
    if key :| key in m && |k| <= |key| && k == key[..|k|] {
      assert |k| == |key| ==> key == k;
    }
  }
}

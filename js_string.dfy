/**
 `String.prototype.split` with a one-character separator, and its inverse
 `Array.prototype.join`. Every occurrence of the separator ends a field, so
 adjacent separators give empty fields and the empty string gives one empty field.
 */
module JsString {
  import opened Wrappers
  import opened JsArray

  /** JavaScript truthiness of a value that is a string or `undefined`: only `undefined` and `""` are falsy. */
  predicate Truthy(v: Option<string>) {
    v.Some? && v.value != ""
  }

  /** `s.split(sep)` for a separator of one character. */
  function Split(s: string, sep: char): (fields: seq<string>)
    ensures |fields| >= 1
    ensures forall i :: 0 <= i < |fields| ==> sep !in fields[i]
    decreases |s|
  {
    var k := FirstIndex(s, sep);
    if k == |s| then [s]
    else [s[..k]] + Split(s[k + 1..], sep)
  }

  /** Every occurrence of the separator ends a field: there is one field more than separators. */
  lemma {:induction false} FieldCount(s: string, sep: char)
    ensures |Split(s, sep)| == multiset(s)[sep] + 1
    decreases |s|
  {
    var k := FirstIndex(s, sep);
    if k == |s| {
      assert sep !in multiset(s);
    } else {
      var rest := s[k + 1..];
      FieldCount(rest, sep);
      assert |Split(s, sep)| == 1 + |Split(rest, sep)| by {
        SplitAtFirst(s, sep);
      }
      assert multiset(s)[sep] == multiset(rest)[sep] + 1 by {
        Reassemble(s, k);
        assert multiset(s) == multiset(s[..k]) + multiset{sep} + multiset(rest);
        assert sep !in multiset(s[..k]);
      }
    }
  }

  /** `fields.join(sep)`. */
  function Join(fields: seq<string>, sep: char): string {
    if fields == [] then ""
    else if |fields| == 1 then fields[0]
    else fields[0] + [sep] + Join(fields[1..], sep)
  }

  /** A field free of the separator, followed by the separator, splits off as the first field. */
  lemma SplitAfterField(field: string, sep: char, rest: string)
    requires sep !in field
    ensures Split(field + [sep] + rest, sep) == [field] + Split(rest, sep)
  {
    var s := field + [sep] + rest;
    FirstIndexOfSuffix(field, sep, rest);
    assert s[..|field|] == field;
    assert s[|field| + 1..] == rest;
  }

  lemma {:induction false} FirstIndexOfSuffix(field: string, sep: char, rest: string)
    requires sep !in field
    ensures FirstIndex(field + [sep] + rest, sep) == |field|
  {
    if field != [] {
      assert (field + [sep] + rest)[1..] == field[1..] + [sep] + rest;
      FirstIndexOfSuffix(field[1..], sep, rest);
    }
  }

  /** Joining the fields restores the split string. */
  lemma {:induction false} JoinSplit(s: string, sep: char)
    ensures Join(Split(s, sep), sep) == s
    decreases |s|
  {
    var k := FirstIndex(s, sep);
    if k < |s| {
      var rest := s[k + 1..];
      JoinSplit(rest, sep);
      assert Join(Split(s, sep), sep) == s[..k] + [sep] + rest by {
        SplitAtFirst(s, sep);
        JoinCons(s[..k], Split(rest, sep), sep);
      }
      Reassemble(s, k);
    }
  }

  lemma JoinCons(field: string, fields: seq<string>, sep: char)
    requires |fields| >= 1
    ensures Join([field] + fields, sep) == field + [sep] + Join(fields, sep)
  {
    assert ([field] + fields)[1..] == fields;
  }

  /** Splitting a join of separator-free fields gives the fields back. */
  lemma {:induction false} SplitJoin(fields: seq<string>, sep: char)
    requires |fields| >= 1
    requires forall i :: 0 <= i < |fields| ==> sep !in fields[i]
    ensures Split(Join(fields, sep), sep) == fields
  {
    if |fields| == 1 {
      assert FirstIndex(fields[0], sep) == |fields[0]|;
    } else {
      SplitJoin(fields[1..], sep);
      SplitAfterField(fields[0], sep, Join(fields[1..], sep));
      assert fields == [fields[0]] + fields[1..];
    }
  }

  /** The first field runs up to the first separator, or is the whole string when there is none. */
  lemma FirstField(s: string, sep: char)
    ensures Split(s, sep)[0] == s[..FirstIndex(s, sep)]
  {
  }

  /** A string holding the separator splits at its first occurrence. */
  lemma SplitAtFirst(s: string, sep: char)
    requires sep in s
    ensures Split(s, sep) == [s[..FirstIndex(s, sep)]] + Split(s[FirstIndex(s, sep) + 1..], sep)
  {
  }

  /**
   A string holding the separator has a second field: what follows the first
   separator, up to the next one or the end.
   */
  lemma SecondField(s: string, sep: char, k: nat)
    requires sep in s && k == FirstIndex(s, sep)
    ensures |Split(s, sep)| >= 2
    ensures Split(s, sep)[1] == s[k + 1..][..FirstIndex(s[k + 1..], sep)]
  {
    SplitAtFirst(s, sep);
    FirstField(s[k + 1..], sep);
  }

  /** The separator-free run `f` of `s` that starts at `start` ends at the next separator or at the end. */
  lemma RunAfter(s: string, sep: char, start: nat, f: string)
    requires start <= |s| && f == s[start..][..FirstIndex(s[start..], sep)]
    ensures start + |f| <= |s| && s[start..start + |f|] == f
    ensures start + |f| == |s| || s[start + |f|] == sep
  {
    var rest := s[start..];
    var j := FirstIndex(rest, sep);
    assert s[start..start + j] == rest[..j];
    assert j < |rest| ==> s[start + j] == rest[j];
  }
}

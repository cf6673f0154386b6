/**
 * String helpers of the firmware: ASCII case mapping (Arduino `toUpperCase`,
 * `toLowerCase`, `equalsIgnoreCase`), a reference definition of splitting a
 * string on a separator, joining with a separator, and `getValueBySeparator`.
 */
module Text {

  function UpperChar(c: char): char
  {
    if 'a' <= c <= 'z' then (c as int - 32) as char else c
  }

  function LowerChar(c: char): char
  {
    if 'A' <= c <= 'Z' then (c as int + 32) as char else c
  }

  function ToUpper(s: string): string
  {
    seq(|s|, i requires 0 <= i < |s| => UpperChar(s[i]))
  }

  function ToLower(s: string): string
  {
    seq(|s|, i requires 0 <= i < |s| => LowerChar(s[i]))
  }

  /** Arduino `String::equalsIgnoreCase`: same length, equal after folding each character. */
  predicate EqualsIgnoreCase(a: string, b: string)
  {
    ToLower(a) == ToLower(b)
  }

  /**
   * Reference definition of the fields of `s` between occurrences of `sep`.
   * There is always at least one field; the string is consumed from its end so
   * that a left-to-right scan can be related to its prefixes.
   */
  function Split(s: string, sep: char): (fields: seq<string>)
    ensures |fields| >= 1
    decreases |s|
  {
    if |s| == 0 then [""]
    else
      var init := Split(s[..|s| - 1], sep);
      if s[|s| - 1] == sep then init + [""]
      else init[..|init| - 1] + [init[|init| - 1] + [s[|s| - 1]]]
  }

  /** Fields joined with `sep` between consecutive ones. */
  function Join(fields: seq<string>, sep: char): string
    decreases |fields|
  {
    if |fields| == 0 then ""
    else if |fields| == 1 then fields[0]
    else Join(fields[..|fields| - 1], sep) + [sep] + fields[|fields| - 1]
  }

  /** One more field adds a separator and that field. */
  lemma JoinSnoc(fields: seq<string>, x: string, sep: char)
    requires |fields| >= 1
    ensures Join(fields + [x], sep) == Join(fields, sep) + [sep] + x
  {
    assert (fields + [x])[..|fields|] == fields;
  }

  /** Fields of a split, with the empty ones left out (kept in order). */
  function NonEmpty(fields: seq<string>): (r: seq<string>)
    ensures forall k :: 0 <= k < |r| ==> r[k] != ""
    decreases |fields|
  {
    if |fields| == 0 then []
    else NonEmpty(fields[..|fields| - 1]) + (if fields[|fields| - 1] == "" then [] else [fields[|fields| - 1]])
  }

  /** Appending one character other than `sep` extends the last field. */
  lemma SplitSnocPlain(p: string, c: char, sep: char)
    requires c != sep
    ensures var f := Split(p, sep);
            Split(p + [c], sep) == f[..|f| - 1] + [f[|f| - 1] + [c]]
  {
    assert (p + [c])[..|p|] == p;
  }

  lemma AppendAssoc(a: string, b: string, c: string)
    ensures (a + b) + c == a + (b + c)
  {
  }

  lemma ConcatSnoc(p: string, q: string)
    requires |q| > 0
    ensures (p + q[..|q| - 1]) + [q[|q| - 1]] == p + q
  {
    assert q[..|q| - 1] + [q[|q| - 1]] == q;
  }

  /** One more character other than `sep` after `p + q` still only extends the last field of `p`. */
  lemma SplitAppendStep(p: string, q: string, c: char, sep: char)
    requires c != sep
    requires var f := Split(p, sep);
             Split(p + q, sep) == f[..|f| - 1] + [f[|f| - 1] + q]
    ensures var f := Split(p, sep);
            Split((p + q) + [c], sep) == f[..|f| - 1] + [(f[|f| - 1] + q) + [c]]
  {
    var f := Split(p, sep);
    var g := Split(p + q, sep);
    assert g[..|g| - 1] == f[..|f| - 1] && g[|g| - 1] == f[|f| - 1] + q by {
      assert g == f[..|f| - 1] + [f[|f| - 1] + q];
    }
    SplitSnocPlain(p + q, c, sep);
  }

  /** Appending characters other than `sep` extends the last field only. */
  lemma {:induction false} SplitAppendPlain(p: string, q: string, sep: char)
    requires sep !in q
    ensures var f := Split(p, sep);
            Split(p + q, sep) == f[..|f| - 1] + [f[|f| - 1] + q]
    decreases |q|
  {
    var f := Split(p, sep);
    if |q| == 0 {
      assert p + q == p;
      assert f[|f| - 1] + q == f[|f| - 1];
      assert f[..|f| - 1] + [f[|f| - 1]] == f;
    } else {
      var q', c := q[..|q| - 1], q[|q| - 1];
      SplitAppendPlain(p, q', sep);
      SplitAppendStep(p, q', c, sep);
      ConcatSnoc(p, q);
      ConcatSnoc(f[|f| - 1], q);
    }
  }

  /** Appending a separator closes the last field and opens an empty one. */
  lemma SplitAppendSep(p: string, sep: char)
    ensures Split(p + [sep], sep) == Split(p, sep) + [""]
  {
    assert (p + [sep])[..|p|] == p;
  }

  /** A string without the separator is its own single field. */
  lemma NoSeparatorSingleField(s: string, sep: char)
    requires sep !in s
    ensures Split(s, sep) == [s]
  {
    SplitAppendPlain("", s, sep);
    assert "" + s == s;
  }

  /** Splitting undoes joining, as long as no field contains the separator. */
  lemma {:induction false} SplitJoin(fields: seq<string>, sep: char)
    requires |fields| >= 1
    requires forall k :: 0 <= k < |fields| ==> sep !in fields[k]
    ensures Split(Join(fields, sep), sep) == fields
    decreases |fields|
  {
    if |fields| == 1 {
      NoSeparatorSingleField(fields[0], sep);
    } else {
      var init := fields[..|fields| - 1];
      var last := fields[|fields| - 1];
      SplitJoin(init, sep);
      var p := Join(init, sep) + [sep];
      SplitAppendSep(Join(init, sep), sep);
      assert Split(p, sep) == init + [""];
      assert sep !in last;
      SplitAppendPlain(p, last, sep);
      assert (init + [""])[..|init|] == init;
      assert "" + last == last;
      assert Join(fields, sep) == p + last;
      assert init + [last] == fields;
    }
  }

  /** Fields that are already closed by a separator are not changed by appending more text. */
  lemma {:induction false} SplitPrefixStable(p: string, q: string, sep: char, k: nat)
    requires k < |Split(p, sep)| - 1
    ensures |Split(p + q, sep)| >= |Split(p, sep)|
    ensures Split(p + q, sep)[k] == Split(p, sep)[k]
    decreases |q|
  {
    if |q| == 0 {
      assert p + q == p;
    } else {
      var q' := q[..|q| - 1];
      SplitPrefixStable(p, q', sep, k);
      assert (p + q)[..|p + q| - 1] == p + q';
    }
  }

  /** Unfolding `Split` on a prefix that grows by one character. */
  lemma SplitSnoc(data: string, sep: char, i: nat)
    requires i < |data|
    ensures var f := Split(data[..i], sep);
            Split(data[..i + 1], sep) ==
              if data[i] == sep then f + [""] else f[..|f| - 1] + [f[|f| - 1] + [data[i]]]
  {
    assert data[..i + 1][..i] == data[..i];
  }

  /**
   * Where the left-to-right scan of `getValueBySeparator` stands after looking
   * at positions `0 .. i-1` (position `|data|` being the end of the string):
   * `found` fields have been closed, the last closed one is `data[start..end]`,
   * and the open one starts at `end + 1`.
   */
  ghost predicate ScanState(data: string, sep: char, i: nat, found: nat, start: int, end: int)
  {
    if i <= |data| then
      found + 1 == |Split(data[..i], sep)| && -1 <= end < i &&
      Split(data[..i], sep)[found] == data[end + 1..i] &&
      (found >= 1 ==> 0 <= start <= end && data[start..end] == Split(data[..i], sep)[found - 1])
    else
      i == |data| + 1 && found == |Split(data, sep)| && 0 <= start <= |data| && end == |data| + 1 &&
      data[start..|data|] == Split(data, sep)[found - 1]
  }

  /** One step of the scan: a separator or the end of the string closes the open field. */
  lemma ScanNext(data: string, sep: char, i: nat, found: nat, start: int, end: int,
                 found': nat, start': int, end': int)
    requires i <= |data| && ScanState(data, sep, i, found, start, end)
    requires i == |data| ==> found' == found + 1 && start' == end + 1 && end' == i + 1
    requires i < |data| && data[i] == sep ==> found' == found + 1 && start' == end + 1 && end' == i
    requires i < |data| && data[i] != sep ==> found' == found && start' == start && end' == end
    ensures ScanState(data, sep, i + 1, found', start', end')
  {
    if i == |data| {
      assert data[..i] == data;
    } else {
      SplitSnoc(data, sep, i);
      var f := Split(data[..i], sep);
      var g := Split(data[..i + 1], sep);
      if data[i] == sep {
        assert g == f + [""];
        assert data[end' + 1..i + 1] == "";
      } else {
        assert g == f[..found] + [f[found] + [data[i]]];
        assert data[end + 1..i + 1] == data[end + 1..i] + [data[i]];
      }
    }
  }

  /**
   * The field the firmware returns: field `index` of `data`, "" past the last
   * field, and the whole string for a negative index (the unsigned end offset
   * -1 wraps above any length and the substring is clipped).
   */
  function FieldAt(data: string, sep: char, index: int): string
  {
    if index < 0 then data
    else if index < |Split(data, sep)| then Split(data, sep)[index]
    else ""
  }

  /** Without a separator, field 0 is the whole string and there is no other field. */
  lemma FieldAtWithoutSeparator(data: string, sep: char, k: nat)
    requires sep !in data
    ensures FieldAt(data, sep, 0) == data
    ensures k > 0 ==> FieldAt(data, sep, k) == ""
  {
    NoSeparatorSingleField(data, sep);
  }

  /** Looking up field `k` of joined fields gives field `k` back, and "" past the last one. */
  lemma FieldAtJoin(fields: seq<string>, sep: char, k: nat)
    requires |fields| >= 1
    requires forall j :: 0 <= j < |fields| ==> sep !in fields[j]
    ensures k < |fields| ==> FieldAt(Join(fields, sep), sep, k) == fields[k]
    ensures k >= |fields| ==> FieldAt(Join(fields, sep), sep, k) == ""
  {
    SplitJoin(fields, sep);
  }

  /**
   * Arduino `String::substring(left, right)`: bounds are swapped when
   * reversed, the end is clipped to the length, and a start past the end gives
   * "". A negative end stands for the unsigned value it wraps to, which
   * exceeds every String length.
   */
  function Substring(s: string, left: nat, right: int): string
  {
    var r: nat := if right < 0 || right > |s| then |s| else right;
    var lo: nat := if left <= r then left else r;
    var hi: nat := if left <= r then r else (if left > |s| then |s| else left);
    if lo >= |s| then "" else s[lo..hi]
  }

  /** What the scan has found once it stops after closing field `index`. */
  lemma ScanResult(data: string, sep: char, index: int, i: nat, found: nat, start: int, end: int)
    requires found > index && i <= |data| + 1
    requires index < 0 ==> start == 0 && end == -1
    requires index >= 0 ==> found == index + 1 && ScanState(data, sep, i, found, start, end)
    ensures start >= 0 && Substring(data, start, end) == FieldAt(data, sep, index)
  {
    if index >= 0 && i <= |data| {
      SplitPrefixStable(data[..i], data[i..], sep, index);
      assert data[..i] + data[i..] == data;
    }
  }

  /** Once the scan has passed the end of the string, every field has been closed. */
  lemma ScanExhausted(data: string, sep: char, index: int, i: nat, found: nat, start: int, end: int)
    requires found <= index && i > |data| && ScanState(data, sep, i, found, start, end)
    ensures FieldAt(data, sep, index) == ""
  {
  }

  /** `getValueBySeparator`: scan once, remembering where the last two separators were. */
  method GetValueBySeparator(data: string, separator: char, index: int) returns (r: string)
    ensures r == FieldAt(data, separator, index)
  {
    var found: nat := 0;
    var start, end := 0, -1;
    var maxIndex := |data|;
    var i := 0;
    assert data[..0] == "";
    while i <= maxIndex && found <= index
      invariant 0 <= i <= maxIndex + 1
      invariant index < 0 ==> i == 0 && found == 0 && start == 0 && end == -1
      invariant index >= 0 ==> found <= index + 1
      invariant ScanState(data, separator, i, found, start, end)
    {
      var found', start', end' := found, start, end;
      if i == maxIndex || data[i] == separator {
        found' := found + 1;
        start' := end + 1;
        end' := if i == maxIndex then i + 1 else i;
      }
      ScanNext(data, separator, i, found, start, end, found', start', end');
      found, start, end := found', start', end';
      i := i + 1;
    }
    if found > index {
      r := Substring(data, start, end);
      ScanResult(data, separator, index, i, found, start, end);
    } else {
      ScanExhausted(data, separator, index, i, found, start, end);
      r := "";
    }
  }
}

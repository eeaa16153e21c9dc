/**
 * Display names of search results.  `_show_search_results` shows a hit as
 * "🔍 <file name> (<k> 匹配)"; `_get_selected_conversation` turns a selected display name
 * back into a file name with `display_name.split(' (')[0][2:]` when it starts with "🔍 ".
 *
 * That decoding cuts at the FIRST " (", so a file name that contains " (" (as in
 * "notes (1).jsonl") or starts with "(" does not survive the round trip.
 * `DecodeAsWritten` is the decoding as written and `AsWrittenLosesNames` shows two such
 * names; `DecodeDisplayName` cuts at the LAST " (" instead and inverts `EncodeDisplayName`
 * for every file name.
 */
module DisplayName {
  import opened Wrappers

  const Marker: string := "🔍 "
  const Separator: string := " ("
  const CountSuffix: string := " 匹配)"

  function DigitChar(d: nat): (c: char)
    requires d < 10
    ensures '0' <= c <= '9'
  {
    "0123456789"[d]
  }

  /** `str(n)`: the decimal digits of `n`. */
  function DecimalString(n: nat): (r: string)
    ensures |r| >= 1
    ensures forall i :: 0 <= i < |r| ==> '0' <= r[i] <= '9'
  {
    if n < 10 then [DigitChar(n)] else DecimalString(n / 10) + [DigitChar(n % 10)]
  }

  /** The name shown for a conversation with `count` matches. */
  function EncodeDisplayName(fileName: string, count: nat): string {
    Marker + fileName + Separator + DecimalString(count) + CountSuffix
  }

  predicate StartsWith(s: string, prefix: string) {
    |prefix| <= |s| && s[..|prefix|] == prefix
  }

  /** " (" starts at index `i` of `s`. */
  predicate SeparatorAt(s: string, i: int) {
    0 <= i && i + 1 < |s| && s[i] == ' ' && s[i + 1] == '('
  }

  predicate ContainsSeparator(s: string) {
    exists i :: 0 <= i < |s| && SeparatorAt(s, i)
  }

  /** `s.split(' (')[0]`: the longest prefix of `s` before any " (". */
  function BeforeFirstSeparator(s: string): (r: string)
    ensures |r| <= |s| && r == s[..|r|]
    ensures !ContainsSeparator(r)
    ensures |r| < |s| ==> SeparatorAt(s, |r|)
  {
    if |s| < 2 then
      assert forall i :: !SeparatorAt(s, i);
      s
    else if s[0] == ' ' && s[1] == '(' then
      ""
    else
      var t := BeforeFirstSeparator(s[1..]);
      var r := [s[0]] + t;
      assert forall i :: SeparatorAt(r, i) && i > 0 ==> SeparatorAt(t, i - 1);
      assert |t| < |s[1..]| ==> SeparatorAt(s, |r|) by {
        if |t| < |s[1..]| {
          assert SeparatorAt(s[1..], |t|);
        }
      }
      r
  }

  /** `s[2:]`. */
  function DropTwo(s: string): string {
    if |s| >= 2 then s[2..] else ""
  }

  /** `_get_selected_conversation`'s decoding, as written. */
  function DecodeAsWritten(d: string): (r: string)
    ensures !StartsWith(d, Marker) ==> r == d
  {
    if StartsWith(d, Marker) then DropTwo(BeforeFirstSeparator(d)) else d
  }

  /** Splitting at the first " (" finds the one right after `x` when `x` has none. */
  lemma {:induction false} SplitAfter(x: string, y: string)
    requires !ContainsSeparator(x)
    ensures BeforeFirstSeparator(x + Separator + y) == x
  {
    var s := x + Separator + y;
    var r := BeforeFirstSeparator(s);
    forall i | 0 <= i < |x|
      ensures !SeparatorAt(s, i)
    {
      if i + 1 < |x| {
        assert !SeparatorAt(x, i);
        assert s[i] == x[i] && s[i + 1] == x[i + 1];
      }
    }
    assert SeparatorAt(s, |x|);
    if |r| > |x| {
      assert SeparatorAt(r, |x|);
    }
  }

  /** The marker ends in a space, so it forms " (" with a name that starts with "(". */
  lemma MarkedNameSeparators(name: string)
    ensures ContainsSeparator(Marker + name) <==> ContainsSeparator(name) || (name != [] && name[0] == '(')
  {
    var s := Marker + name;
    if ContainsSeparator(s) {
      var i :| 0 <= i < |s| && SeparatorAt(s, i);
      if i >= 2 {
        assert SeparatorAt(name, i - 2);
      }
    }
    if ContainsSeparator(name) {
      var i :| 0 <= i < |name| && SeparatorAt(name, i);
      assert SeparatorAt(s, i + 2);
    }
    if name != [] && name[0] == '(' {
      assert SeparatorAt(s, 1);
    }
  }

  /** As written, the round trip holds only for names without " (" that do not start with "(". */
  lemma AsWrittenRoundTrip(name: string, count: nat)
    requires !ContainsSeparator(name)
    requires name == [] || name[0] != '('
    ensures DecodeAsWritten(EncodeDisplayName(name, count)) == name
  {
    MarkedNameSeparators(name);
    var d := EncodeDisplayName(name, count);
    assert d == (Marker + name) + Separator + (DecimalString(count) + CountSuffix);
    SplitAfter(Marker + name, DecimalString(count) + CountSuffix);
    assert StartsWith(d, Marker);
  }

  /** As written, a name is cut at its own first " (". */
  lemma AsWrittenCutsAtSeparator(a: string, b: string, count: nat)
    requires !ContainsSeparator(a)
    requires a == [] || a[0] != '('
    ensures DecodeAsWritten(EncodeDisplayName(a + Separator + b, count)) == a
  {
    MarkedNameSeparators(a);
    var d := EncodeDisplayName(a + Separator + b, count);
    assert d == (Marker + a) + Separator + (b + Separator + DecimalString(count) + CountSuffix);
    SplitAfter(Marker + a, b + Separator + DecimalString(count) + CountSuffix);
    assert StartsWith(d, Marker);
  }

  /** As written, a name that starts with "(" decodes to the empty name. */
  lemma AsWrittenDropsParenthesised(b: string, count: nat)
    ensures DecodeAsWritten(EncodeDisplayName("(" + b, count)) == ""
  {
    var d := EncodeDisplayName("(" + b, count);
    var head := Marker[..1];
    assert d == head + Separator + (b + Separator + DecimalString(count) + CountSuffix);
    assert !ContainsSeparator(head);
    SplitAfter(head, b + Separator + DecimalString(count) + CountSuffix);
    assert StartsWith(d, Marker);
  }

  /** Two file names the decoding as written gets wrong. */
  lemma AsWrittenLosesNames()
    ensures DecodeAsWritten(EncodeDisplayName("notes (1).jsonl", 2)) == "notes"
    ensures DecodeAsWritten(EncodeDisplayName("(draft).jsonl", 1)) == ""
  {
    assert "notes (1).jsonl" == "notes" + Separator + "1).jsonl";
    NoSeparatorIn("notes");
    AsWrittenCutsAtSeparator("notes", "1).jsonl", 2);
    assert "(draft).jsonl" == "(" + "draft).jsonl";
    AsWrittenDropsParenthesised("draft).jsonl", 1);
  }

  lemma NoSeparatorIn(s: string)
    requires forall i :: 0 <= i < |s| - 1 ==> !(s[i] == ' ' && s[i + 1] == '(')
    ensures !ContainsSeparator(s)
  {
  }

  // ---------------------------------------------------------------------------------------
  // The corrected decoding

  /** The start of the last " (" that ends at or before `end`. */
  function LastSeparator(s: string, end: nat): (r: Option<nat>)
    requires end <= |s|
    ensures r.Some? ==> r.value + 2 <= end && SeparatorAt(s, r.value)
    ensures r.Some? ==> forall i :: r.value < i && i + 2 <= end ==> !SeparatorAt(s, i)
    ensures r.None? ==> forall i :: 0 <= i && i + 2 <= end ==> !SeparatorAt(s, i)
  {
    if end < 2 then None
    else if s[end - 2] == ' ' && s[end - 1] == '(' then Some(end - 2)
    else LastSeparator(s, end - 1)
  }

  /** The decoding as intended: drop the marker and the " (<k> 匹配)" that follows the name. */
  function DecodeDisplayName(d: string): (r: string)
    ensures !StartsWith(d, Marker) ==> r == d
  {
    if StartsWith(d, Marker) then
      var body := d[|Marker|..];
      match LastSeparator(body, |body|)
      case Some(i) => body[..i]
      case None => body
    else d
  }

  /** No " (" occurs in the count suffix after its leading separator. */
  lemma SuffixSeparators(name: string, count: nat)
    ensures var body := name + Separator + DecimalString(count) + CountSuffix;
      forall i :: |name| < i ==> !SeparatorAt(body, i)
  {
    var digits := DecimalString(count);
    var body := name + Separator + digits + CountSuffix;
    assert forall i :: |name| < i ==> !SeparatorAt(body, i);
  }

  /** The corrected decoding recovers every file name. */
  lemma RoundTrip(name: string, count: nat)
    ensures DecodeDisplayName(EncodeDisplayName(name, count)) == name
  {
    var d := EncodeDisplayName(name, count);
    var body := name + Separator + DecimalString(count) + CountSuffix;
    assert StartsWith(d, Marker) && d[|Marker|..] == body;
    SuffixSeparators(name, count);
    assert SeparatorAt(body, |name|);
    var r := LastSeparator(body, |body|);
    assert r == Some(|name|);
  }
}

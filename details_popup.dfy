/** DetailsPopup's choice of which record fields to show, in which order, under which labels
    (the widgets themselves are not modelled). */
module DetailsPopup {
  import opened Results
  import opened PyValues
  import opened PyText

  /** Human-readable labels for the common columns. */
  const FieldLabels: map<string, string> := map[
    "book_id" := "Book ID", "title" := "Title", "author_name" := "Author",
    "author_id" := "Author ID", "publisher_name" := "Publisher", "publisher_id" := "Publisher ID",
    "price" := "Price", "stock" := "Stock", "copies_available" := "Available",
    "copies_total" := "Total Copies", "description" := "Description", "isbn" := "ISBN",
    "genre" := "Genre", "publication_year" := "Publication Year", "author_bio" := "Bio",
    "author_country" := "Country", "author_birth_year" := "Birth Year",
    "author_death_year" := "Death Year", "author_email" := "Email", "location" := "Location",
    "contact_email" := "Contact Email", "phone" := "Phone", "category_id" := "Category ID",
    "name" := "Name", "full_name" := "Full Name"]

  /** The identity fields shown first, in this order, when the record has them. */
  const PreferredOrder: seq<string> := [
    "book_id", "title", "author_name", "author_id", "publisher_name", "publisher_id",
    "price", "stock", "copies_available", "copies_total", "isbn", "genre", "publication_year",
    "name", "full_name", "author_bio", "bio", "country", "birth_year", "location", "contact_email",
    "phone", "description"]

  predicate NoDup(s: seq<string>) {
    forall i, j :: 0 <= i < j < |s| ==> s[i] != s[j]
  }

  /** `[k for k in s if (k in among) == inside]`. */
  function Select(s: seq<string>, among: seq<string>, inside: bool): (r: seq<string>)
    ensures |r| <= |s|
    decreases |s|
  {
    if s == [] then []
    else (if (s[0] in among) == inside then [s[0]] else []) + Select(s[1..], among, inside)
  }

  /** The position of the first `x` in `s`. */
  function IndexOf(s: seq<string>, x: string): (i: nat)
    requires x in s
    ensures i < |s| && s[i] == x
  {
    if s[0] == x then 0 else 1 + IndexOf(s[1..], x)
  }

  /** The selection holds exactly the chosen elements. */
  lemma {:induction false} SelectMembers(s: seq<string>, among: seq<string>, inside: bool)
    ensures forall x :: x in Select(s, among, inside) <==> x in s && (x in among) == inside
    decreases |s|
  {
    if s != [] {
      SelectMembers(s[1..], among, inside);
      assert forall x :: x in s <==> x == s[0] || x in s[1..];
    }
  }

  /** A selection from a sequence without repeats has no repeats. */
  lemma {:induction false} SelectNoDup(s: seq<string>, among: seq<string>, inside: bool)
    requires NoDup(s)
    ensures NoDup(Select(s, among, inside))
    decreases |s|
  {
    if s != [] {
      var tail := s[1..];
      assert NoDup(tail);
      SelectNoDup(tail, among, inside);
      SelectMembers(tail, among, inside);
      var rt := Select(tail, among, inside);
      if (s[0] in among) == inside {
        var r := [s[0]] + rt;
        assert Select(s, among, inside) == r;
        assert s[0] !in rt;
        forall i, j | 0 <= i < j < |r|
          ensures r[i] != r[j]
        {
          assert r[j] == rt[j - 1];
          if i > 0 {
            assert r[i] == rt[i - 1];
          }
        }
      } else {
        assert Select(s, among, inside) == rt;
      }
    }
  }

  /** Every element of `r` occurs in `s`, and in the same order. */
  predicate RankedBy(r: seq<string>, s: seq<string>) {
    (forall x :: x in r ==> x in s) &&
    forall i, j :: 0 <= i < j < |r| ==> IndexOf(s, r[i]) < IndexOf(s, r[j])
  }

  /** Positions in the tail of `s` are one less than in `s`. */
  lemma RankedShift(s: seq<string>, r: seq<string>)
    requires s != [] && NoDup(s)
    requires RankedBy(r, s[1..])
    ensures RankedBy(r, s)
    ensures forall x :: x in r ==> IndexOf(s, x) >= 1
  {
    forall x | x in r
      ensures x in s && IndexOf(s, x) == 1 + IndexOf(s[1..], x)
    {
      assert x in s[1..];
      assert x != s[0];
    }
  }

  /** The head of `s` can go in front of elements that come after it. */
  lemma RankedPrepend(s: seq<string>, r: seq<string>)
    requires s != []
    requires RankedBy(r, s)
    requires forall x :: x in r ==> IndexOf(s, x) >= 1
    ensures RankedBy([s[0]] + r, s)
  {
    var r1 := [s[0]] + r;
    forall i, j | 0 <= i < j < |r1|
      ensures IndexOf(s, r1[i]) < IndexOf(s, r1[j])
    {
      assert r1[j] == r[j - 1];
      if i > 0 {
        assert r1[i] == r[i - 1];
      }
    }
  }

  /** A selection keeps the order of the sequence it is taken from. */
  lemma {:induction false} SelectKeepsOrder(s: seq<string>, among: seq<string>, inside: bool)
    requires NoDup(s)
    ensures RankedBy(Select(s, among, inside), s)
    decreases |s|
  {
    if s != [] {
      var tail := s[1..];
      assert NoDup(tail);
      SelectKeepsOrder(tail, among, inside);
      var rt := Select(tail, among, inside);
      RankedShift(s, rt);
      if (s[0] in among) == inside {
        assert Select(s, among, inside) == [s[0]] + rt;
        RankedPrepend(s, rt);
      } else {
        assert Select(s, among, inside) == rt;
      }
    }
  }

  /** The record's keys in display order: the keys of `pref` it has, in `pref`'s order, then
      its other keys in its own order. */
  function Arrange(pref: seq<string>, record: Dict): seq<string> {
    var keys := Keys(record);
    var preferred := Select(pref, keys, true);
    preferred + Select(keys, preferred, false)
  }

  /** (key, `record.get(key)`) for each of `ks`. */
  function FieldsOf(ks: seq<string>, record: Dict): (r: seq<(string, Value)>)
    ensures |r| == |ks|
    ensures forall i :: 0 <= i < |r| ==> r[i].0 == ks[i]
    ensures forall i :: 0 <= i < |r| ==> r[i].1 == Lookup(record, ks[i]).GetOr(VNone)
  {
    seq(|ks|, i requires 0 <= i < |ks| => (ks[i], Lookup(record, ks[i]).GetOr(VNone)))
  }

  /** `_sorted_fields()`. */
  function SortedFields(record: Dict): seq<(string, Value)> {
    FieldsOf(Arrange(PreferredOrder, record), record)
  }

  /** A number computed from a key: its length times 1000000, plus 1000 times the code of its
      first character, plus the code of its second. The 23 preferred keys all get different
      numbers, so checking that they are distinct needs one table lookup per key
      (`PositionOfSignature`) instead of comparing every pair of strings. */
  function Signature(s: string): int {
    if |s| < 2 then 0 else |s| * 1000000 + (s[0] as int) * 1000 + s[1] as int
  }

  /** The inverse table of `Signature` on the preferred order: the signature of the key at
      position i of `PreferredOrder` maps to i (for example 7098111 is "book_id": 7 characters,
      'b' = 98, 'o' = 111), and any other number maps to -1. */
  function PositionOfSignature(x: int): int {
    if x == 7098111 then 0 else
    if x == 5116105 then 1 else
    if x == 11097117 then 2 else
    if x == 9097117 then 3 else
    if x == 14112117 then 4 else
    if x == 12112117 then 5 else
    if x == 5112114 then 6 else
    if x == 5115116 then 7 else
    if x == 16099111 then 8 else
    if x == 12099111 then 9 else
    if x == 4105115 then 10 else
    if x == 5103101 then 11 else
    if x == 16112117 then 12 else
    if x == 4110097 then 13 else
    if x == 9102117 then 14 else
    if x == 10097117 then 15 else
    if x == 3098105 then 16 else
    if x == 7099111 then 17 else
    if x == 10098105 then 18 else
    if x == 8108111 then 19 else
    if x == 13099111 then 20 else
    if x == 5112104 then 21 else
    if x == 11100101 then 22 else
    -1
  }

  /** Each preferred key's signature leads back to its own position. */
  lemma PreferredPositions()
    ensures forall i :: 0 <= i < |PreferredOrder| ==> PositionOfSignature(Signature(PreferredOrder[i])) == i
  {
  }

  /** No key is listed twice in the preferred order. */
  lemma PreferredOrderNoDup()
    ensures NoDup(PreferredOrder)
  {
    PreferredPositions();
  }

  /** A sequence without repeats counts each of its elements once. */
  lemma {:induction false} NoDupMultiset(s: seq<string>)
    requires NoDup(s)
    ensures forall x :: multiset(s)[x] == if x in s then 1 else 0
    decreases |s|
  {
    if s != [] {
      assert s == [s[0]] + s[1..];
      assert NoDup(s[1..]);
      NoDupMultiset(s[1..]);
      assert s[0] !in s[1..];
    }
  }

  /** Two sequences without repeats and with the same members are permutations of each other. */
  lemma SameMembersPermutation(a: seq<string>, b: seq<string>)
    requires NoDup(a) && NoDup(b)
    requires forall x :: x in a <==> x in b
    ensures multiset(a) == multiset(b)
  {
    NoDupMultiset(a);
    NoDupMultiset(b);
  }

  /** Joining two sequences without repeats and without a common element repeats nothing. */
  lemma AppendNoDup(a: seq<string>, b: seq<string>)
    requires NoDup(a) && NoDup(b)
    requires forall x :: x in b ==> x !in a
    ensures NoDup(a + b)
  {
    var all := a + b;
    forall i, j | 0 <= i < j < |all|
      ensures all[i] != all[j]
    {
      if j < |a| {
        assert all[i] == a[i] && all[j] == a[j];
      } else if i >= |a| {
        assert all[i] == b[i - |a|] && all[j] == b[j - |a|];
      } else {
        assert all[i] == a[i] && all[j] in b;
      }
    }
  }

  /** Arranging by an order without repeats lists each key of the record exactly once. */
  lemma ArrangePermutation(pref: seq<string>, record: Dict)
    requires NoDup(pref) && DistinctKeys(record)
    ensures multiset(Arrange(pref, record)) == multiset(Keys(record))
  {
    var keys := Keys(record);
    var preferred := Select(pref, keys, true);
    var others := Select(keys, preferred, false);
    assert NoDup(keys);
    SelectNoDup(pref, keys, true);
    SelectNoDup(keys, preferred, false);
    SelectMembers(pref, keys, true);
    SelectMembers(keys, preferred, false);
    AppendNoDup(preferred, others);
    var all := preferred + others;
    assert forall x :: x in all <==> x in preferred || x in others;
    SameMembersPermutation(all, keys);
  }

  /** In the arrangement the keys of `pref` come first, in `pref`'s order, and the other keys
      follow in the record's own order. */
  lemma ArrangeOrder(pref: seq<string>, record: Dict)
    requires NoDup(pref) && DistinctKeys(record)
    ensures var ks := Arrange(pref, record);
      var n := |Select(pref, Keys(record), true)|;
      n <= |ks| &&
      (forall i :: 0 <= i < |ks| ==> (i < n <==> ks[i] in pref)) &&
      RankedBy(ks[..n], pref) && RankedBy(ks[n..], Keys(record))
  {
    var keys := Keys(record);
    var preferred := Select(pref, keys, true);
    var others := Select(keys, preferred, false);
    var ks := preferred + others;
    var n := |preferred|;
    assert NoDup(keys);
    SelectKeepsOrder(pref, keys, true);
    SelectKeepsOrder(keys, preferred, false);
    SelectMembers(pref, keys, true);
    SelectMembers(keys, preferred, false);
    forall i | n <= i < |ks|
      ensures ks[i] !in pref
    {
      assert ks[i] == others[i - n];
    }
    assert ks[..n] == preferred && ks[n..] == others;
  }

  /** Each shown pair is an entry of the record: its value is the record's value for its key. */
  lemma SortedFieldsAreEntries(pref: seq<string>, record: Dict)
    ensures var r := FieldsOf(Arrange(pref, record), record);
      forall i :: 0 <= i < |r| ==> r[i] in record
  {
    var keys := Keys(record);
    var preferred := Select(pref, keys, true);
    SelectMembers(pref, keys, true);
    SelectMembers(keys, preferred, false);
    var ks := Arrange(pref, record);
    var r := FieldsOf(ks, record);
    forall i | 0 <= i < |r|
      ensures r[i] in record
    {
      assert ks[i] in keys;
      var found := Lookup(record, ks[i]);
      assert r[i] == (ks[i], found.value);
    }
  }

  /** The label shown for `key`: its entry in the label table, otherwise the key with
      underscores turned into spaces and title-cased. */
  function Label(key: string): (shown: string)
    ensures key in FieldLabels ==> shown == FieldLabels[key]
    ensures key !in FieldLabels ==> |shown| == |key|
  {
    if key in FieldLabels then FieldLabels[key] else Title(ReplaceChar(key, '_', ' '))
  }

  /** A derived label has a space wherever the key had an underscore and keeps every other
      non-letter; a letter is capitalised when it starts a word (it follows a non-letter, or
      begins the key) and lower-cased otherwise. */
  lemma DerivedLabel(key: string)
    requires key !in FieldLabels
    ensures var shown := Label(key);
      '_' !in shown &&
      (forall i :: 0 <= i < |key| && key[i] == '_' ==> shown[i] == ' ') &&
      (forall i :: 0 <= i < |key| && !IsLetter(key[i]) && key[i] != '_' ==> shown[i] == key[i]) &&
      (|key| > 0 && IsLetter(key[0]) ==> shown[0] == ToUpper(key[0])) &&
      (forall i :: 0 < i < |key| && IsLetter(key[i]) ==>
         shown[i] == if IsLetter(key[i - 1]) then ToLower(key[i]) else ToUpper(key[i]))
  {
    var spaced := ReplaceChar(key, '_', ' ');
    var shown := Label(key);
    assert shown == TitleAfter(spaced, false);
    forall i | 0 < i < |key| && IsLetter(key[i])
      ensures shown[i] == if IsLetter(key[i - 1]) then ToLower(key[i]) else ToUpper(key[i])
    {
      assert spaced[i] == key[i];
      assert IsLetter(spaced[i - 1]) == IsLetter(key[i - 1]);
    }
    forall i | 0 <= i < |shown|
      ensures shown[i] != '_'
    {
      assert !IsLetter(spaced[i]) ==> shown[i] == spaced[i];
    }
  }
}

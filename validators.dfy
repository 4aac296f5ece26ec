/** backend/utils/validators.py: ISBN-10/13 check digits (ISO 2108), phone numbers, staff
    roles and non-blank strings. Character classes are ASCII (see PyText). */
module Validators {
  import opened Results
  import opened PyText
  import opened PyValues

  // ---------------------------------------------------------------- ISBN

  /** `isbn.replace("-", "").replace(" ", "")`. */
  function Clean(isbn: string): string {
    RemoveChar(RemoveChar(isbn, '-'), ' ')
  }

  function DigitValue(c: char): int requires IsDigit(c) { c as int - '0' as int }

  /** The value of character `c` at index `i` of a 10-character ISBN: 'X' or 'x' counts 10,
      but only as the last (check) character. */
  function Isbn10Value(c: char, i: int): Option<int> {
    if ToUpper(c) == 'X' && i == 9 then Some(10)
    else if IsDigit(c) then Some(DigitValue(c))
    else None
  }

  /** Σ value(s[i]) × (10 − i) over the first `n` characters. */
  function Isbn10Sum(s: string, n: nat): int
    requires n <= |s|
  {
    if n == 0 then 0 else Isbn10Sum(s, n - 1) + Isbn10Value(s[n - 1], n - 1).GetOr(0) * (10 - (n - 1))
  }

  /** ISBN-13 weight: 1 at even indices, 3 at odd ones. */
  function Weight13(i: nat): int { if i % 2 == 0 then 1 else 3 }

  /** Σ digit(s[i]) × weight(i) over the first `n` characters (non-digits count 0). */
  function Isbn13Sum(s: string, n: nat): int
    requires n <= |s|
  {
    if n == 0 then 0
    else Isbn13Sum(s, n - 1) + (if IsDigit(s[n - 1]) then DigitValue(s[n - 1]) else 0) * Weight13(n - 1)
  }

  /** The ISO 2108 check for a cleaned 10-character ISBN. */
  predicate Isbn10Ok(s: string)
    requires |s| == 10
  {
    (forall i :: 0 <= i < 10 ==> Isbn10Value(s[i], i).Some?) && Isbn10Sum(s, 10) % 11 == 0
  }

  /** The EAN-13 check for a cleaned 13-character ISBN. */
  predicate Isbn13Ok(s: string)
    requires |s| == 13
  {
    (forall i :: 0 <= i < 13 ==> IsDigit(s[i])) && Isbn13Sum(s, 13) % 10 == 0
  }

  /** Reference definition of a valid ISBN string: non-empty, and once hyphens and spaces are
      removed, a valid ISBN-10 or ISBN-13. */
  predicate IsbnValid(isbn: string) {
    isbn != [] &&
    var s := Clean(isbn);
    if |s| == 10 then Isbn10Ok(s)
    else if |s| == 13 then Isbn13Ok(s)
    else false
  }

  /** `is_valid_isbn(isbn)`: the checksum loops of the source, proved to decide IsbnValid. */
  method IsValidIsbn(isbn: string) returns (ok: bool)
    ensures ok == IsbnValid(isbn)
  {
    if isbn == [] {
      return false;
    }
    var s := Clean(isbn);
    if |s| == 10 {
      ok := Isbn10Check(s);
    } else if |s| == 13 {
      ok := Isbn13Check(s);
    } else {
      ok := false;
    }
  }

  /** The ISBN-10 loop: weights 10 down to 1, 'X' only as the last character, sum ≡ 0 mod 11. */
  method Isbn10Check(s: string) returns (ok: bool)
    requires |s| == 10
    ensures ok == Isbn10Ok(s)
  {
    var total := 0;
    var i := 0;
    while i < 10
      invariant 0 <= i <= 10
      invariant forall j :: 0 <= j < i ==> Isbn10Value(s[j], j).Some?
      invariant total == Isbn10Sum(s, i)
    {
      var c := s[i];
      var value;
      if ToUpper(c) == 'X' && i == 9 {
        value := 10;
      } else if IsDigit(c) {
        value := DigitValue(c);
      } else {
        assert Isbn10Value(s[i], i).None?;
        return false;
      }
      total := total + value * (10 - i);
      i := i + 1;
    }
    return total % 11 == 0;
  }

  /** The ISBN-13 loop: weights alternating 1 and 3, sum ≡ 0 mod 10. */
  method Isbn13Check(s: string) returns (ok: bool)
    requires |s| == 13
    ensures ok == Isbn13Ok(s)
  {
    var total := 0;
    var i := 0;
    while i < 13
      invariant 0 <= i <= 13
      invariant forall j :: 0 <= j < i ==> IsDigit(s[j])
      invariant total == Isbn13Sum(s, i)
    {
      if !IsDigit(s[i]) {
        return false;
      }
      var factor := if i % 2 == 0 then 1 else 3;
      total := total + DigitValue(s[i]) * factor;
      i := i + 1;
    }
    return total % 10 == 0;
  }

  /** Removing hyphens and spaces a second time changes nothing. */
  lemma CleanIdempotent(isbn: string)
    ensures Clean(Clean(isbn)) == Clean(isbn)
  {
    var once := Clean(isbn);
    assert ' ' !in once;
    assert '-' !in RemoveChar(isbn, '-');
    assert '-' !in once;
  }

  /** Hyphens and spaces are ignored: a string and its cleaned form are equally valid
      (the cleaned form's own emptiness check agrees, since an empty cleaned form fails the
      length test anyway). */
  lemma IsbnIgnoresSeparators(isbn: string)
    ensures IsbnValid(isbn) == IsbnValid(Clean(isbn))
  {
    CleanIdempotent(isbn);
  }

  /** Only cleaned lengths 10 and 13 can be valid; the empty string never is. */
  lemma IsbnLength(isbn: string)
    ensures IsbnValid(isbn) ==> |Clean(isbn)| == 10 || |Clean(isbn)| == 13
    ensures !IsbnValid([])
  {
  }

  /** An 'X' (or 'x') anywhere but the check position makes a 10-character ISBN invalid. */
  lemma IsbnXOnlyLast(isbn: string, i: nat)
    requires |Clean(isbn)| == 10 && i < 9
    requires Clean(isbn)[i] == 'X' || Clean(isbn)[i] == 'x'
    ensures !IsbnValid(isbn)
  {
    assert Isbn10Value(Clean(isbn)[i], i).None?;
  }

  /** A 10-character ISBN whose characters are all digits except possibly a final 'X' is valid
      exactly when its weighted sum is divisible by 11. */
  lemma Isbn10Characterised(isbn: string)
    requires isbn != [] && |Clean(isbn)| == 10
    requires forall i :: 0 <= i < 9 ==> IsDigit(Clean(isbn)[i])
    requires IsDigit(Clean(isbn)[9]) || Clean(isbn)[9] == 'X' || Clean(isbn)[9] == 'x'
    ensures IsbnValid(isbn) <==> Isbn10Sum(Clean(isbn), 10) % 11 == 0
  {
    var s := Clean(isbn);
    assert forall i :: 0 <= i < 10 ==> Isbn10Value(s[i], i).Some?;
  }

  /** A string without hyphens or spaces is checked as it is. */
  lemma CleanWithoutSeparators(isbn: string)
    requires '-' !in isbn && ' ' !in isbn
    ensures Clean(isbn) == isbn
  {
  }

  /** The worked ISBN-10 example of ISO 2108: 0306406152 passes the check; changing its check
      digit breaks it. */
  lemma Isbn10Example()
    ensures Isbn10Ok("0306406152")
    ensures !Isbn10Ok("0306406153")
  {
    assert Isbn10Sum("0306406152", 5) == 93;
    assert Isbn10Sum("0306406152", 10) == 132;
    assert Isbn10Sum("0306406153", 5) == 93;
    assert Isbn10Sum("0306406153", 10) == 133;
  }

  /** The worked ISBN-13 example: 9780306406157 passes the check. */
  lemma Isbn13Example()
    ensures Isbn13Ok("9780306406157")
  {
    assert Isbn13Sum("9780306406157", 5) == 41;
    assert Isbn13Sum("9780306406157", 9) == 59;
    assert Isbn13Sum("9780306406157", 13) == 100;
  }

  // ---------------------------------------------------------------- phone

  /** The regex class `[\d\s\-\(\)]`. */
  predicate PhoneChar(c: char) {
    IsDigit(c) || IsSpace(c) || c == '-' || c == '(' || c == ')'
  }

  /** `\+?[\d\s\-\(\)]{7,20}` matching all of `t`. */
  predicate PhoneBody(t: string) {
    var rest := if |t| > 0 && t[0] == '+' then t[1..] else t;
    7 <= |rest| <= 20 && forall i :: 0 <= i < |rest| ==> PhoneChar(rest[i])
  }

  /** `is_valid_phone(phone)`: `re.match(r'^\+?[\d\s\-\(\)]{7,20}$', phone)`. Python's `$` also
      matches just before a final newline, so that newline may follow a complete match. */
  predicate IsValidPhone(phone: string) {
    phone != [] &&
    (PhoneBody(phone) || (phone[|phone| - 1] == '\n' && PhoneBody(phone[..|phone| - 1])))
  }

  /** Without a trailing newline, a phone number is an optional '+' followed by 7 to 20
      digits, whitespace, hyphens or parentheses; a valid number has 7 to 22 characters. */
  lemma PhoneShape(phone: string)
    ensures IsValidPhone(phone) ==> 7 <= |phone| <= 22
    ensures (phone == [] || phone[|phone| - 1] != '\n') ==> (IsValidPhone(phone) <==> PhoneBody(phone))
  {
  }

  /** The trailing-newline allowance: twenty digits followed by a newline pass, although
      the class admits at most twenty characters and twenty-one digits fail. */
  lemma PhoneTrailingNewline(digits: string)
    requires |digits| == 20 && forall i :: 0 <= i < |digits| ==> IsDigit(digits[i])
    ensures IsValidPhone(digits + "\n")
    ensures !IsValidPhone(digits + "1")
  {
    var t := digits + "\n";
    assert t[|t| - 1] == '\n';
    assert t[..|t| - 1] == digits;
    assert digits[0] != '+';
    assert forall i :: 0 <= i < |digits| ==> PhoneChar(digits[i]);
    assert PhoneBody(digits);
  }

  // ---------------------------------------------------------------- roles and strings

  const AllowedRoles: seq<string> := ["Admin", "Manager", "Clerk"]

  /** `is_valid_role(role)`: list membership, so case-sensitive and false for non-strings. */
  predicate IsValidRole(role: Value) {
    role.VStr? && role.s in AllowedRoles
  }

  lemma RoleExamples()
    ensures IsValidRole(VStr("Admin")) && IsValidRole(VStr("Manager")) && IsValidRole(VStr("Clerk"))
    ensures !IsValidRole(VStr("admin")) && !IsValidRole(VNone)
  {
  }

  /** A role is valid exactly when it is one of the three role names, spelled exactly. */
  lemma RoleExact(role: Value)
    ensures IsValidRole(role) <==> role == VStr("Admin") || role == VStr("Manager") || role == VStr("Clerk")
  {
  }

  /** `is_non_empty_string(value)`: a string with at least one non-whitespace character. */
  function IsNonEmptyString(value: Value): (r: bool)
    ensures r <==> value.VStr? && exists i :: 0 <= i < |value.s| && !IsSpace(value.s[i])
  {
    if value.VStr? then
      StripEmptyIff(value.s);
      Strip(value.s) != []
    else
      false
  }
}

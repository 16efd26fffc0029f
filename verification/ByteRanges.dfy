/**
  Selecting a byte range from a request's Range field (app/src-tauri/src/server.rs).
  A field value that `to_str` refuses, or no field at all, is `None`.
*/
module ByteRanges {
  import opened Common

  datatype RangeSelection = Full | Partial(first: nat, last: nat) | Unsatisfiable

  predicate IsDigit(c: char) { '0' <= c <= '9' }
  predicate IsBlank(c: char) { c == ' ' || c == '\t' }
  predicate AllDigits(s: string) { forall i :: 0 <= i < |s| ==> IsDigit(s[i]) }
  predicate AllBlank(s: string) { forall i :: 0 <= i < |s| ==> IsBlank(s[i]) }
  predicate IsNumber(s: string) { s != "" && AllDigits(s) }

  function Digit(c: char): nat
    requires IsDigit(c)
  {
    (c - '0') as int
  }

  /** One step of the source's fold: saturating u64 multiply, then saturating add. */
  function Accumulate(number: nat, digit: nat): nat {
    Min(Min(number * 10, U64_MAX) + digit, U64_MAX)
  }

  function Fold(s: string): nat
    requires AllDigits(s)
  {
    if s == "" then 0 else Accumulate(Fold(s[..|s| - 1]), Digit(s[|s| - 1]))
  }

  function Decimal(s: string): Option<nat> {
    if !IsNumber(s) then None else Some(Fold(s))
  }

  /** The number a string of digits denotes. */
  function Value(s: string): nat
    requires AllDigits(s)
  {
    if s == "" then 0 else Value(s[..|s| - 1]) * 10 + Digit(s[|s| - 1])
  }

  lemma {:induction false} FoldSaturates(s: string)
    requires AllDigits(s)
    ensures Fold(s) == Min(Value(s), U64_MAX)
  {
    if s != "" {
      FoldSaturates(s[..|s| - 1]);
    }
  }

  // ------------------------------------------------------------------ the source's parser

  function TrimStart(s: string): string {
    if s != "" && IsBlank(s[0]) then TrimStart(s[1..]) else s
  }

  function TrimEnd(s: string): string {
    if s != "" && IsBlank(s[|s| - 1]) then TrimEnd(s[..|s| - 1]) else s
  }

  function Trim(s: string): string { TrimEnd(TrimStart(s)) }

  /** `split_once('-')`: the text before and after the first dash. */
  function SplitOnce(s: string): Option<(string, string)> {
    if s == "" then None
    else if s[0] == '-' then Some(("", s[1..]))
    else match SplitOnce(s[1..])
      case None => None
      case Some((before, after)) => Some(([s[0]] + before, after))
  }

  const PREFIX: string := "bytes="

  function SelectRange(header: Option<string>, size: nat): RangeSelection {
    if header.None? || !(PREFIX <= header.value) then Full
    else match SplitOnce(header.value[|PREFIX|..])
      case None => Full
      case Some((before, after)) => SelectTrimmed(Trim(before), Trim(after), size)
  }

  function SelectTrimmed(first: string, last: string, size: nat): RangeSelection {
    if first == "" then
      match Decimal(last)
      case None => Full
      case Some(suffix) =>
        if suffix == 0 || size == 0 then Unsatisfiable
        else Partial(if suffix <= size then size - suffix else 0, size - 1)
    else
      match Decimal(first)
      case None => Full
      case Some(start) =>
        var end := if last == "" then Some(U64_MAX) else Decimal(last);
        match end
        case None => Full
        case Some(e) =>
          if start > e then Full
          else if size == 0 || start >= size then Unsatisfiable
          else Partial(start, Min(e, size - 1))
  }

  // ------------------------------------------------------------------ RFC 9110, section 14.1.2

  datatype RangeSpec = IntRange(first: nat, last: Option<nat>) | Suffix(length: nat)

  /** An int-range whose last position precedes its first is invalid and must be ignored. */
  predicate ValidSpec(spec: RangeSpec) {
    spec.IntRange? && spec.last.Some? ==> spec.first <= spec.last.value
  }

  predicate Satisfiable(spec: RangeSpec, size: nat) {
    match spec
    case IntRange(first, _) => first < size
    case Suffix(length) => length > 0
  }

  /** The positions a satisfiable spec selects from a non-empty representation. */
  function Selected(spec: RangeSpec, size: nat): (nat, nat)
    requires size > 0 && Satisfiable(spec, size)
  {
    match spec
    case IntRange(first, None) => (first, size - 1)
    case IntRange(first, Some(last)) => (first, Min(last, size - 1))
    case Suffix(length) => (size - Min(length, size), size - 1)
  }

  /** The spec a field of one of the three forms denotes, without any bound on its numbers. */
  function SpecOf(first: string, last: string): RangeSpec
    requires AllDigits(first) && AllDigits(last) && (first != "" || last != "")
  {
    if first == "" then Suffix(Value(last))
    else IntRange(Value(first), if last == "" then None else Some(Value(last)))
  }

  lemma {:induction false} SplitAtDash(before: string, after: string)
    requires '-' !in before
    ensures SplitOnce(before + ['-'] + after) == Some((before, after))
  {
    var s := before + ['-'] + after;
    if before == "" {
      assert s[1..] == after;
    } else {
      assert s[1..] == before[1..] + ['-'] + after;
      SplitAtDash(before[1..], after);
      assert [s[0]] + before[1..] == before;
    }
  }

  lemma {:induction false} SplitFindsDash(s: string)
    ensures SplitOnce(s).Some? ==>
              var (before, after) := SplitOnce(s).value; '-' !in before && s == before + ['-'] + after
  {
    if s != "" && s[0] != '-' {
      SplitFindsDash(s[1..]);
    }
  }

  lemma {:induction false} TrimStartDropsBlanks(pad: string, s: string)
    requires AllBlank(pad) && (s == "" || !IsBlank(s[0]))
    ensures TrimStart(pad + s) == s
  {
    if pad == "" {
      assert pad + s == s;
    } else {
      assert (pad + s)[1..] == pad[1..] + s;
      TrimStartDropsBlanks(pad[1..], s);
    }
  }

  lemma {:induction false} TrimEndDropsBlanks(s: string, pad: string)
    requires AllBlank(pad) && (s == "" || !IsBlank(s[|s| - 1]))
    ensures TrimEnd(s + pad) == s
  {
    if pad == "" {
      assert s + pad == s;
    } else {
      assert (s + pad)[..|s + pad| - 1] == s + pad[..|pad| - 1];
      TrimEndDropsBlanks(s, pad[..|pad| - 1]);
    }
  }

  lemma TrimDropsPadding(left: string, digits: string, right: string)
    requires AllBlank(left) && AllDigits(digits) && AllBlank(right)
    ensures Trim(left + digits + right) == digits
  {
    if digits == "" {
      assert left + digits + right == (left + right) + "";
      TrimStartDropsBlanks(left + right, "");
    } else {
      assert left + digits + right == left + (digits + right);
      TrimStartDropsBlanks(left, digits + right);
      TrimEndDropsBlanks(digits, right);
    }
  }

  /** The field with blanks around its positions. */
  function Field(l1: string, first: string, r1: string, l2: string, last: string, r2: string): string {
    PREFIX + (l1 + first + r1 + ['-'] + (l2 + last + r2))
  }

  lemma FieldReaches(l1: string, first: string, r1: string, l2: string, last: string, r2: string, size: nat)
    requires AllBlank(l1) && AllBlank(r1) && AllBlank(l2) && AllBlank(r2)
    requires AllDigits(first) && AllDigits(last)
    ensures SelectRange(Some(Field(l1, first, r1, l2, last, r2)), size) == SelectTrimmed(first, last, size)
  {
    var field := Field(l1, first, r1, l2, last, r2);
    assert field[|PREFIX|..] == (l1 + first + r1) + ['-'] + (l2 + last + r2);
    assert '-' !in l1 + first + r1;
    SplitAtDash(l1 + first + r1, l2 + last + r2);
    TrimDropsPadding(l1, first, r1);
    TrimDropsPadding(l2, last, r2);
  }

  /**
    For every field of the forms `bytes=a-b`, `bytes=a-` and `bytes=-n`, however large its numbers:
    a partial response is chosen exactly when the range is valid, satisfiable and the representation
    is not empty, and it is exactly the selected range. Everything else is ignored or refused; the
    saturating numbers only show when both positions of an invalid range are at least 2^64 - 1, which
    is refused instead of ignored.
  */
  lemma RangeFollowsRfc(l1: string, first: string, r1: string, l2: string, last: string, r2: string, size: nat)
    requires AllBlank(l1) && AllBlank(r1) && AllBlank(l2) && AllBlank(r2)
    requires AllDigits(first) && AllDigits(last) && (first != "" || last != "")
    requires size <= U64_MAX
    ensures var spec := SpecOf(first, last);
            var r := SelectRange(Some(Field(l1, first, r1, l2, last, r2)), size);
            && (r.Partial? <==> ValidSpec(spec) && Satisfiable(spec, size) && size > 0)
            && (r.Partial? ==> (r.first, r.last) == Selected(spec, size) && r.first <= r.last < size)
            && (r.Full? <==> !ValidSpec(spec) && spec.last.value < U64_MAX)
  {
    FieldReaches(l1, first, r1, l2, last, r2, size);
    FoldSaturates(first);
    FoldSaturates(last);
  }

  /** Any other field is ignored: only the three forms lead to anything but a full response. */
  lemma OtherFieldsAreIgnored(header: Option<string>, size: nat)
    requires !SelectRange(header, size).Full?
    ensures header.Some? && PREFIX <= header.value
    ensures exists before, after ::
              && header.value == PREFIX + (before + ['-'] + after)
              && '-' !in before
              && AllDigits(Trim(before)) && AllDigits(Trim(after))
              && (Trim(before) != "" || Trim(after) != "")
  {
    var rest := header.value[|PREFIX|..];
    SplitFindsDash(rest);
    var (before, after) := SplitOnce(rest).value;
    assert header.value == PREFIX + (before + ['-'] + after);
  }

  /** An empty representation is never served in part, although RFC 9110 calls a suffix of it satisfiable. */
  lemma EmptySuffixDiffers()
    ensures Satisfiable(SpecOf("", "5"), 0)
    ensures SelectRange(Some("bytes=-5"), 0) == Unsatisfiable
  {
    assert Value("5") == 5 by { assert Value("") == 0; assert "5"[..0] == ""; }
    assert "bytes=-5" == Field("", "", "", "", "5", "");
    RangeFollowsRfc("", "", "", "", "5", "", 0);
  }

  function Nines(count: nat): (s: string)
    ensures |s| == count && AllDigits(s)
  {
    if count == 0 then "" else Nines(count - 1) + ['9']
  }

  function PowerOfTen(count: nat): nat {
    if count == 0 then 1 else 10 * PowerOfTen(count - 1)
  }

  lemma {:induction false} ValueOfNines(count: nat)
    ensures Value(Nines(count)) == PowerOfTen(count) - 1
  {
    if count > 0 {
      ValueOfNines(count - 1);
      assert Nines(count)[..count - 1] == Nines(count - 1);
    }
  }

  /** Saturation, concretely: an invalid range whose positions are both past 2^64 - 1 is refused, not ignored. */
  lemma SaturatedInvalidRangeIsRefused()
    ensures !ValidSpec(SpecOf(Nines(21), Nines(20)))
    ensures SelectRange(Some(Field("", Nines(21), "", "", Nines(20), "")), 10) == Unsatisfiable
  {
    ValueOfNines(21);
    ValueOfNines(20);
    assert PowerOfTen(4) == 10_000 && PowerOfTen(8) == 100_000_000 && PowerOfTen(12) == 1_000_000_000_000;
    assert PowerOfTen(16) == 10_000_000_000_000_000 && PowerOfTen(20) == 100_000_000_000_000_000_000;
    RangeFollowsRfc("", Nines(21), "", "", Nines(20), "", 10);
  }
}

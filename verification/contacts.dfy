/** The contact table as the script holds it after reading the
    spreadsheet: an ordered sequence of rows, the phone column normalised,
    and the boolean-mask filter that keeps today's birthdays. */
module Contacts {
  import Phone

  datatype Option<T> = None | Some(value: T)

  /** A calendar date; only month and day take part in the filter. */
  datatype Date = Date(year: int, month: int, day: int)

  /** One spreadsheet row. An empty `birthday` cell is read as a missing
      date (`None`), which compares unequal to every month and day. */
  datatype Row = Row(phone: string, firstName: string, otherName: string, birthday: Option<Date>)

  /** The mask of the filter: the birthday's month and day equal the
      reference date's month and day; both years are ignored. A missing
      date never matches, and a birthday on the reference date itself
      always does. */
  predicate IsBirthdayOn(row: Row, today: Date): (b: bool)
    ensures b ==> row.birthday.Some?
    ensures row.birthday == Some(today) ==> b
  {
    row.birthday.Some? && row.birthday.value.month == today.month && row.birthday.value.day == today.day
  }

  /** The `phone` column after normalisation: every phone is its row's
      original phone normalised, so it carries the `+` prefix; every other
      column and the row order are untouched, and a row whose phone was
      already prefixed is unchanged. */
  function NormalizePhones(table: seq<Row>): (r: seq<Row>)
    ensures |r| == |table|
    ensures forall i | 0 <= i < |r| :: r[i].phone == Phone.Normalize(table[i].phone)
    ensures forall i | 0 <= i < |r| :: Phone.HasPlus(r[i].phone)
    ensures forall i | 0 <= i < |r| :: r[i].(phone := table[i].phone) == table[i]
    ensures forall i | 0 <= i < |r| :: Phone.HasPlus(table[i].phone) ==> r[i] == table[i]
  {
    if table == [] then []
    else
      var last := table[|table| - 1];
      NormalizePhones(table[..|table| - 1]) + [last.(phone := Phone.Normalize(last.phone))]
  }

  /** The rows whose birthday is today, in table order. Every row it
      keeps matches, and it is empty exactly when no row matches. */
  function FilterToday(table: seq<Row>, today: Date): (r: seq<Row>)
    ensures |r| <= |table|
    ensures forall j | 0 <= j < |r| :: IsBirthdayOn(r[j], today)
    ensures r == [] <==> forall i | 0 <= i < |table| :: !IsBirthdayOn(table[i], today)
  {
    if table == [] then []
    else
      var init := table[..|table| - 1];
      var last := table[|table| - 1];
      assert table == init + [last];
      if IsBirthdayOn(last, today) then FilterToday(init, today) + [last]
      else FilterToday(init, today)
  }

  /** The positions the mask selects: strictly increasing, inside the
      table, and containing a position exactly when that row matches. */
  function KeptPositions(table: seq<Row>, today: Date): (ix: seq<nat>)
    ensures forall j | 0 <= j < |ix| :: ix[j] < |table|
    ensures forall j, k | 0 <= j < k < |ix| :: ix[j] < ix[k]
    ensures forall i | 0 <= i < |table| :: i in ix <==> IsBirthdayOn(table[i], today)
  {
    if table == [] then []
    else
      var n := |table| - 1;
      var init := KeptPositions(table[..n], today);
      if IsBirthdayOn(table[n], today) then init + [n] else init
  }

  /** The filter keeps exactly the table's matching rows: a row is in the
      result if and only if it is in the table and its birthday is today. */
  lemma {:induction false} FilterKeepsExactlyMatching(table: seq<Row>, today: Date, x: Row)
    ensures x in FilterToday(table, today) <==> x in table && IsBirthdayOn(x, today)
  {
    if table != [] {
      var n := |table| - 1;
      assert table == table[..n] + [table[n]];
      FilterKeepsExactlyMatching(table[..n], today, x);
    }
  }

  /** Stability: the filter's output is the table read at the kept
      positions, in increasing order, so it is a subsequence of the table
      in the original order. */
  lemma {:induction false} FilterIsStable(table: seq<Row>, today: Date)
    ensures |FilterToday(table, today)| == |KeptPositions(table, today)|
    ensures forall j | 0 <= j < |KeptPositions(table, today)| ::
              FilterToday(table, today)[j] == table[KeptPositions(table, today)[j]]
  {
    if table != [] {
      var n := |table| - 1;
      FilterIsStable(table[..n], today);
    }
  }

  /** Filtering a concatenation filters each part and keeps the parts in
      order. */
  lemma {:induction false} FilterAppend(a: seq<Row>, b: seq<Row>, today: Date)
    ensures FilterToday(a + b, today) == FilterToday(a, today) + FilterToday(b, today)
  {
    if b != [] {
      var n := |b| - 1;
      var ab := a + b;
      assert ab[..|ab| - 1] == a + b[..n];
      assert ab[|ab| - 1] == b[n];
      FilterAppend(a, b[..n], today);
      var fa := FilterToday(a, today);
      if IsBirthdayOn(b[n], today) {
        calc {
          FilterToday(ab, today);
          FilterToday(a + b[..n], today) + [b[n]];
          fa + FilterToday(b[..n], today) + [b[n]];
          fa + FilterToday(b, today);
        }
      } else {
        calc {
          FilterToday(ab, today);
          FilterToday(a + b[..n], today);
          fa + FilterToday(b, today);
        }
      }
    } else {
      assert a + b == a;
    }
  }

  /** The reference date's year plays no part. */
  lemma {:induction false} FilterIgnoresTodaysYear(table: seq<Row>, today: Date, year: int)
    ensures FilterToday(table, today) == FilterToday(table, today.(year := year))
  {
    if table != [] {
      FilterIgnoresTodaysYear(table[..|table| - 1], today, year);
    }
  }

  /** Two rows that differ at most in their birthday's year. */
  predicate SameButYear(a: Row, b: Row) {
    a.phone == b.phone && a.firstName == b.firstName && a.otherName == b.otherName &&
    a.birthday.Some? == b.birthday.Some? &&
    (a.birthday.Some? ==> a.birthday.value.month == b.birthday.value.month &&
                          a.birthday.value.day == b.birthday.value.day)
  }

  /** The birthdays' years play no part in which positions are kept: two
      tables whose rows differ only in birthday year keep the same ones. */
  lemma {:induction false} KeptPositionsIgnoreBirthYears(t1: seq<Row>, t2: seq<Row>, today: Date)
    requires |t1| == |t2|
    requires forall i | 0 <= i < |t1| :: SameButYear(t1[i], t2[i])
    ensures KeptPositions(t1, today) == KeptPositions(t2, today)
  {
    if t1 != [] {
      var n := |t1| - 1;
      KeptPositionsIgnoreBirthYears(t1[..n], t2[..n], today);
      assert IsBirthdayOn(t1[n], today) == IsBirthdayOn(t2[n], today);
    }
  }

  /** Nor in which rows are kept: the filtered tables have the same length
      and their rows still differ only in year. */
  lemma {:induction false} FilterIgnoresBirthYears(t1: seq<Row>, t2: seq<Row>, today: Date)
    requires |t1| == |t2|
    requires forall i | 0 <= i < |t1| :: SameButYear(t1[i], t2[i])
    ensures |FilterToday(t1, today)| == |FilterToday(t2, today)|
    ensures forall j | 0 <= j < |FilterToday(t1, today)| ::
              SameButYear(FilterToday(t1, today)[j], FilterToday(t2, today)[j])
  {
    if t1 != [] {
      var n := |t1| - 1;
      FilterIgnoresBirthYears(t1[..n], t2[..n], today);
      assert IsBirthdayOn(t1[n], today) == IsBirthdayOn(t2[n], today);
    }
  }

  /** Normalising the phones before or after filtering gives the same
      rows: the filter never looks at the phone column. */
  lemma {:induction false} NormalizeCommutesWithFilter(table: seq<Row>, today: Date)
    ensures FilterToday(NormalizePhones(table), today) == NormalizePhones(FilterToday(table, today))
  {
    if table != [] {
      var n := |table| - 1;
      var last := table[n];
      var nlast := last.(phone := Phone.Normalize(last.phone));
      NormalizeCommutesWithFilter(table[..n], today);
      assert NormalizePhones(table)[..n] == NormalizePhones(table[..n]);
      assert NormalizePhones(table)[n] == nlast;
      assert IsBirthdayOn(nlast, today) == IsBirthdayOn(last, today);
      if IsBirthdayOn(last, today) {
        var f := FilterToday(table[..n], today);
        assert FilterToday(table, today) == f + [last];
        assert NormalizePhones(f + [last])[..|f|] == NormalizePhones(f);
      }
    }
  }

  /** Normalising an already normalised table changes nothing. */
  lemma NormalizePhonesIdempotent(table: seq<Row>)
    ensures NormalizePhones(NormalizePhones(table)) == NormalizePhones(table)
  {
  }
}

/**
 * The sort order of the attachment table in the file view
 * (FileView.TableComparator): a column index and a direction that a click
 * on a column header changes, and a comparison of two table entries by the
 * value in that column.
 */
module FileViewSorting {
  import opened Wrappers
  import opened JavaStrings

  const DEFAULT_SORT_COLUMN: int := 0
  const DESCENDING: int := 1
  const ASCENDING: int := 0

  /** The columns compareNullSafe sorts by; every other index compares as equal. */
  const MIME_ICON_COLUMN: int := 0
  const NAME_COLUMN: int := 1
  const MIME_TYPE_COLUMN: int := 2
  const TEXT_COLUMN: int := 3
  const DATE_COLUMN: int := 4
  const VERSION_COLUMN: int := 5
  const SIZE_COLUMN: int := 6

  /**
   * The attachment properties the comparator reads; None stands for a
   * Java null. The date is the instant in milliseconds; the file size is
   * the decimal string the attachment stores.
   */
  datatype Attachment = Attachment(
    mimeType: Option<string>,
    fileName: Option<string>,
    text: Option<string>,
    date: Option<int>,
    version: Option<string>,
    fileSize: Option<string>)

  /** The runtime exceptions a comparison can end in. */
  datatype Failure = NullPointer | NumberFormat

  /**
   * What the comparator consults outside the attachments: the view's map
   * from MIME type to icon name, and NumericStringComparator.compare.
   */
  datatype Collaborators = Collaborators(
    mimeImageMap: map<string, string>,
    numericCompare: (string, string) -> Int32)

  /** Java's String.compareTo where the receiver may be null. */
  function CompareStrings(s1: Option<string>, s2: Option<string>): (r: Result<int, Failure>)
    ensures r.Err? <==> s1.None? || s2.None?
    ensures r.Ok? ==> (r.value == 0 <==> s1 == s2)
  {
    if s1.None? || s2.None? then Err(NullPointer) else Ok(CompareTo(s1.value, s2.value))
  }

  /** The sign Date.compareTo returns. */
  function CompareDates(d1: Option<int>, d2: Option<int>): (r: Result<int, Failure>)
    ensures r.Err? <==> d1.None? || d2.None?
    ensures r.Ok? ==> (r.value < 0 <==> d1.value < d2.value)
    ensures r.Ok? ==> (r.value > 0 <==> d1.value > d2.value)
  {
    if d1.None? || d2.None? then Err(NullPointer)
    else Ok(if d1.value < d2.value then -1 else if d1.value > d2.value then 1 else 0)
  }

  /** The file size as the size column reads it: a missing size is 0, a malformed one fails. */
  function SizeOf(a: Attachment): (r: Result<int, Failure>)
    ensures a.fileSize.None? ==> r == Ok(0)
    ensures a.fileSize.Some? ==> (r.Ok? <==> ParseInt(a.fileSize.value).Some?)
    ensures r.Ok? ==> IsInt32(r.value)
  {
    if a.fileSize.None? then Ok(0)
    else match ParseInt(a.fileSize.value)
      case None => Err(NumberFormat)
      case Some(n) => Ok(n)
  }

  /** compareNullSafe: two non-null attachments compared by one column. */
  function CompareNullSafe(propertyIndex: int, a1: Attachment, a2: Attachment, env: Collaborators): (r: Result<int, Failure>)
    ensures !(0 <= propertyIndex <= 6) ==> r == Ok(0)
    ensures r.Err? ==> propertyIndex in {NAME_COLUMN, TEXT_COLUMN, DATE_COLUMN, VERSION_COLUMN, SIZE_COLUMN}
    ensures propertyIndex == SIZE_COLUMN && r.Ok? ==> -1 <= r.value <= 1
  {
    if propertyIndex == MIME_ICON_COLUMN then
      if a1.mimeType.None? || a2.mimeType.None? then Ok(0)
      else
        var m1 := a1.mimeType.value;
        var m2 := a2.mimeType.value;
        if m1 in env.mimeImageMap && m2 in env.mimeImageMap
        then Ok(CompareTo(env.mimeImageMap[m1], env.mimeImageMap[m2]))
        else Ok(0)
    else if propertyIndex == NAME_COLUMN then
      if a1.fileName.None? || a2.fileName.None? then Err(NullPointer)
      else Ok(env.numericCompare(ToLowerCase(a1.fileName.value), ToLowerCase(a2.fileName.value)))
    else if propertyIndex == MIME_TYPE_COLUMN then
      if a1.mimeType.None? || a2.mimeType.None? then Ok(0)
      else Ok(CompareTo(a1.mimeType.value, a2.mimeType.value))
    else if propertyIndex == TEXT_COLUMN then CompareStrings(a1.text, a2.text)
    else if propertyIndex == DATE_COLUMN then CompareDates(a1.date, a2.date)
    else if propertyIndex == VERSION_COLUMN then CompareStrings(a1.version, a2.version)
    else if propertyIndex == SIZE_COLUMN then
      match SizeOf(a1)
      case Err(e) => Err(e)
      case Ok(s1) =>
        match SizeOf(a2)
        case Err(e) => Err(e)
        case Ok(s2) => Ok(if s2 > s1 then 1 else if s1 > s2 then -1 else 0)
    else Ok(0)
  }

  /**
   * The ascending comparison of two table entries, None standing for null:
   * a null entry sorts after every attachment, and two nulls reach
   * compareNullSafe, which dereferences them in every sorting column.
   */
  function CompareEntries(propertyIndex: int, e1: Option<Attachment>, e2: Option<Attachment>, env: Collaborators): (r: Result<int, Failure>)
    ensures e1.None? && e2.Some? ==> r == Ok(1)
    ensures e1.Some? && e2.None? ==> r == Ok(-1)
    ensures e1.None? && e2.None? ==> (r.Err? <==> 0 <= propertyIndex <= 6)
  {
    if e1.None? && e2.Some? then Ok(1)
    else if e2.None? && e1.Some? then Ok(-1)
    else if e1.None? then (if 0 <= propertyIndex <= 6 then Err(NullPointer) else Ok(0))
    else CompareNullSafe(propertyIndex, e1.value, e2.value, env)
  }

  /** The result of a comparison with its sign flipped (Java int negation). */
  function Flip(rc: Result<int, Failure>): (r: Result<int, Failure>)
    ensures r.Err? <==> rc.Err?
    ensures rc.Err? ==> r == rc
    ensures rc.Ok? && IsInt32(rc.value) && rc.value != INT_MIN ==> r == Ok(-rc.value)
  {
    match rc
    case Err(e) => Err(e)
    case Ok(x) => Ok(Negate32(x))
  }

  /** The result of a comparison with its sign flipped in plain arithmetic. */
  function Negated(rc: Result<int, Failure>): Result<int, Failure> {
    match rc
    case Err(e) => Err(e)
    case Ok(x) => Ok(-x)
  }

  /** The sorter attached to the attachment table. */
  class TableComparator {
    var propertyIndex: int
    var direction: int

    constructor ()
      ensures propertyIndex == DEFAULT_SORT_COLUMN && direction == ASCENDING
    {
      propertyIndex := DEFAULT_SORT_COLUMN;
      direction := ASCENDING;
    }

    /** A click on a column header: the same column again toggles the direction, a new one sorts ascending. */
    method SetColumn(column: int)
      modifies this
      ensures propertyIndex == column
      ensures old(propertyIndex) == column ==>
        direction == (if old(direction) == ASCENDING then DESCENDING else ASCENDING)
      ensures old(propertyIndex) != column ==> direction == ASCENDING
    {
      if column == propertyIndex {
        direction := if direction == ASCENDING then DESCENDING else ASCENDING;
      } else {
        propertyIndex := column;
        direction := ASCENDING;
      }
    }

    /** compare(viewer, e1, e2): the ascending comparison, flipped when descending. */
    function Compare(e1: Option<Attachment>, e2: Option<Attachment>, env: Collaborators): (r: Result<int, Failure>)
      reads this
      ensures direction != DESCENDING ==> r == CompareEntries(propertyIndex, e1, e2, env)
      ensures direction == DESCENDING ==> r == Flip(CompareEntries(propertyIndex, e1, e2, env))
    {
      var rc := CompareEntries(propertyIndex, e1, e2, env);
      if direction == DESCENDING then Flip(rc) else rc
    }
  }

  /** Two clicks on a new column leave the table sorted by it in descending order. */
  method ClickColumnTwice(t: TableComparator, column: int)
    requires t.propertyIndex != column
    modifies t
    ensures t.propertyIndex == column && t.direction == DESCENDING
  {
    t.SetColumn(column);
    t.SetColumn(column);
  }

  /** Wherever the table sorts ascending, null entries come last; descending, first. */
  lemma NullPlacement(t: TableComparator, a: Attachment, env: Collaborators)
    ensures t.direction == ASCENDING ==>
      t.Compare(None, Some(a), env) == Ok(1) && t.Compare(Some(a), None, env) == Ok(-1)
    ensures t.direction == DESCENDING ==>
      t.Compare(None, Some(a), env) == Ok(-1) && t.Compare(Some(a), None, env) == Ok(1)
  {
  }

  /** Both MIME columns treat an attachment without a MIME type as equal to any other. */
  lemma MissingMimeTypeComparesEqual(propertyIndex: int, a1: Attachment, a2: Attachment, env: Collaborators)
    requires propertyIndex == MIME_ICON_COLUMN || propertyIndex == MIME_TYPE_COLUMN
    requires a1.mimeType.None? || a2.mimeType.None?
    ensures CompareNullSafe(propertyIndex, a1, a2, env) == Ok(0)
    ensures CompareNullSafe(propertyIndex, a2, a1, env) == Ok(0)
  {
  }

  /**
   * The size column puts the larger file first when ascending: the result
   * is negative exactly when the first file is larger, positive exactly when
   * it is smaller.
   */
  lemma SizeColumnLargestFirst(a1: Attachment, a2: Attachment, env: Collaborators)
    requires SizeOf(a1).Ok? && SizeOf(a2).Ok?
    ensures CompareNullSafe(SIZE_COLUMN, a1, a2, env).Ok?
    ensures CompareNullSafe(SIZE_COLUMN, a1, a2, env).value < 0 <==> SizeOf(a1).value > SizeOf(a2).value
    ensures CompareNullSafe(SIZE_COLUMN, a1, a2, env).value > 0 <==> SizeOf(a1).value < SizeOf(a2).value
  {
  }

  /** A malformed size on either side ends the size comparison in NumberFormatException. */
  lemma SizeColumnMalformed(a1: Attachment, a2: Attachment, env: Collaborators)
    requires SizeOf(a1).Err? || SizeOf(a2).Err?
    ensures CompareNullSafe(SIZE_COLUMN, a1, a2, env) == Err(NumberFormat)
  {
  }

  /** An attachment without a size sorts like one of size "0". */
  lemma MissingSizeIsZero(a1: Attachment, a2: Attachment, env: Collaborators)
    requires a1.fileSize.None?
    ensures CompareNullSafe(SIZE_COLUMN, a1, a2, env)
         == CompareNullSafe(SIZE_COLUMN, a1.(fileSize := Some("0")), a2, env)
  {
    ParseIntOfNatToString(0);
  }

  /** The size order is transitive, so sorting by it is well defined. */
  lemma SizeColumnTransitive(a1: Attachment, a2: Attachment, a3: Attachment, env: Collaborators)
    requires CompareNullSafe(SIZE_COLUMN, a1, a2, env).Ok? && CompareNullSafe(SIZE_COLUMN, a1, a2, env).value <= 0
    requires CompareNullSafe(SIZE_COLUMN, a2, a3, env).Ok? && CompareNullSafe(SIZE_COLUMN, a2, a3, env).value <= 0
    ensures CompareNullSafe(SIZE_COLUMN, a1, a3, env).Ok? && CompareNullSafe(SIZE_COLUMN, a1, a3, env).value <= 0
  {
  }

  /**
   * Swapping the entries negates the ascending comparison and keeps its
   * failures, provided the numeric name comparator is antisymmetric.
   */
  lemma CompareEntriesAntisymmetric(propertyIndex: int, e1: Option<Attachment>, e2: Option<Attachment>, env: Collaborators)
    requires forall x, y :: env.numericCompare(y, x) as int == -(env.numericCompare(x, y) as int)
    ensures CompareEntries(propertyIndex, e2, e1, env) == Negated(CompareEntries(propertyIndex, e1, e2, env))
  {
    if e1.Some? && e2.Some? {
      var a1, a2 := e1.value, e2.value;
      if propertyIndex == MIME_ICON_COLUMN && a1.mimeType.Some? && a2.mimeType.Some? {
        var m1, m2 := a1.mimeType.value, a2.mimeType.value;
        if m1 in env.mimeImageMap && m2 in env.mimeImageMap {
          CompareToAntisymmetric(env.mimeImageMap[m1], env.mimeImageMap[m2]);
        }
      } else if propertyIndex == MIME_TYPE_COLUMN && a1.mimeType.Some? && a2.mimeType.Some? {
        CompareToAntisymmetric(a1.mimeType.value, a2.mimeType.value);
      } else if propertyIndex == TEXT_COLUMN && a1.text.Some? && a2.text.Some? {
        CompareToAntisymmetric(a1.text.value, a2.text.value);
      } else if propertyIndex == VERSION_COLUMN && a1.version.Some? && a2.version.Some? {
        CompareToAntisymmetric(a1.version.value, a2.version.value);
      }
    }
  }

  /** In descending order every comparison is the ascending one with its sign flipped. */
  lemma DescendingFlipsAscending(t: TableComparator, e1: Option<Attachment>, e2: Option<Attachment>, env: Collaborators)
    requires t.direction == DESCENDING
    requires CompareEntries(t.propertyIndex, e1, e2, env).Ok?
    requires IsInt32(CompareEntries(t.propertyIndex, e1, e2, env).value)
    requires CompareEntries(t.propertyIndex, e1, e2, env).value != INT_MIN
    ensures t.Compare(e1, e2, env) == Negated(CompareEntries(t.propertyIndex, e1, e2, env))
  {
  }
}

/** The listings store: raw cells as the database driver hands them back,
    the row a caller receives after the post-read normalisation, the
    exception classes the processing layer distinguishes, and the database
    file and connection objects that ingestion writes through. */
module Listings {

  datatype Option<T> = None | Some(value: T)

  /** The exception classes the callers tell apart: `sqlite3.Error`, a
      pydantic `ValidationError`, and every other exception. */
  datatype Error = SqliteError(msg: string) | ValidationError(msg: string) | UnexpectedError(msg: string)

  datatype Result<T> = Success(value: T) | Failure(error: Error)

  /** A numeric cell: a finite number, SQL NULL (read back as NaN), or an
      IEEE infinity (a REAL column can hold `Inf` and `-Inf`). */
  datatype Num = Finite(value: real) | Missing | PosInf | NegInf

  /** A text cell: a string or SQL NULL. */
  datatype Cell = Null | Str(s: string)

  /** One row of the `listings` table as stored. */
  datatype Listing = Listing(
    propertyId: string,
    price: Num,
    bedrooms: Num,
    bathrooms: Num,
    squareFeet: Num,
    city: Cell,
    dateListed: Cell)

  type Table = seq<Listing>

  const ListingsTable: string := "listings"

  /** A text column after `fillna(value=0)`: a NULL cell now holds the integer 0. */
  datatype Text = Text(s: string) | ZeroFilled

  /** A row after normalisation: the four numeric columns are integers. */
  datatype Row = Row(
    propertyId: string,
    price: int,
    bedrooms: int,
    bathrooms: int,
    squareFeet: int,
    city: Text,
    dateListed: Text)

  /** How a processing function reaches the database: through a connection
      the caller passed in, through a connection it opened from a path, or
      not at all because opening the path raised a `sqlite3.Error`. */
  datatype Access = SuppliedConnection | OpenedFromPath | OpenFailed(reason: string)

  /** The error a read reports for a missing `listings` table. The data
      frame reader wraps the driver's error in an exception of its own that
      is not a `sqlite3.Error`. */
  const MissingTable: Error := UnexpectedError("Execution failed on sql: no such table: listings")

  /** `int(x)` / `astype(int)` on a float: truncation toward zero. */
  function Trunc(x: real): (t: int)
    ensures x >= 0.0 ==> 0 <= t && t as real <= x < t as real + 1.0
    ensures x < 0.0 ==> t <= 0 && t as real - 1.0 < x <= t as real
  {
    if x >= 0.0 then x.Floor else -((-x).Floor)
  }

  /** Replace NaN and the infinities by 0, then truncate to an integer:
      toward zero, so a whole number comes out as it is. */
  function FillNumber(n: Num): (v: int)
    ensures !n.Finite? ==> v == 0
    ensures n.Finite? && n.value >= 0.0 ==> 0 <= v && v as real <= n.value < v as real + 1.0
    ensures n.Finite? && n.value < 0.0 ==> v <= 0 && v as real - 1.0 < n.value <= v as real
    ensures Integral(n) ==> v as real == n.value
  {
    match n
    case Finite(x) =>
      if Integral(n) then TruncWhole(x); Trunc(x) else Trunc(x)
    case _ => 0
  }

  /** A NULL text cell, and only a NULL one, comes out as the 0 of `fillna`. */
  function FillText(c: Cell): (t: Text)
    ensures t.ZeroFilled? <==> c.Null?
    ensures c.Str? ==> t == Text(c.s)
  {
    match c
    case Str(s) => Text(s)
    case Null => ZeroFilled
  }

  /** The normalisation both processing functions apply after reading:
      non-finite numbers become 0, the four numeric columns are truncated
      to integers, NULL text becomes 0; the identifier is untouched. */
  function Normalize(l: Listing): (r: Row)
    ensures r.propertyId == l.propertyId
    ensures !l.price.Finite? ==> r.price == 0
    ensures !l.bedrooms.Finite? ==> r.bedrooms == 0
    ensures !l.bathrooms.Finite? ==> r.bathrooms == 0
    ensures !l.squareFeet.Finite? ==> r.squareFeet == 0
    ensures l.price.Finite? ==> r.price == Trunc(l.price.value)
    ensures l.bedrooms.Finite? ==> r.bedrooms == Trunc(l.bedrooms.value)
    ensures l.bathrooms.Finite? ==> r.bathrooms == Trunc(l.bathrooms.value)
    ensures l.squareFeet.Finite? ==> r.squareFeet == Trunc(l.squareFeet.value)
    ensures (r.city == ZeroFilled <==> l.city.Null?) && (l.city.Str? ==> r.city == Text(l.city.s))
    ensures (r.dateListed == ZeroFilled <==> l.dateListed.Null?)
    ensures l.dateListed.Str? ==> r.dateListed == Text(l.dateListed.s)
  {
    Row(l.propertyId, FillNumber(l.price), FillNumber(l.bedrooms), FillNumber(l.bathrooms),
        FillNumber(l.squareFeet), FillText(l.city), FillText(l.dateListed))
  }

  function NormalizeAll(t: Table): (rs: seq<Row>)
    ensures |rs| == |t|
    ensures forall i :: 0 <= i < |t| ==> rs[i] == Normalize(t[i])
  {
    seq(|t|, i requires 0 <= i < |t| => Normalize(t[i]))
  }

  /** A number cell that needs no normalisation: a finite integer. */
  predicate Integral(n: Num) {
    n.Finite? && n.value == n.value.Floor as real
  }

  /** A row already in the form normalisation produces. */
  predicate Clean(l: Listing) {
    Integral(l.price) && Integral(l.bedrooms) && Integral(l.bathrooms) && Integral(l.squareFeet)
    && l.city.Str? && l.dateListed.Str?
  }

  /** Normalisation loses nothing on a clean row: every value comes out as stored. */
  lemma NormalizeKeepsCleanRows(l: Listing)
    requires Clean(l)
    ensures Normalize(l) == Row(l.propertyId, l.price.value.Floor, l.bedrooms.value.Floor,
                                l.bathrooms.value.Floor, l.squareFeet.value.Floor,
                                Text(l.city.s), Text(l.dateListed.s))
  {
  }

  /** Truncation of a value between two integers stays between them. */
  lemma TruncBetween(x: real, lo: int, hi: int)
    requires lo as real <= x <= hi as real
    ensures lo <= Trunc(x) <= hi
  {
    if x >= 0.0 {
      assert (lo as real).Floor == lo;
    } else {
      assert -x <= -lo as real;
    }
  }

  /** A whole number truncates to itself. */
  lemma TruncWhole(x: real)
    requires x == x.Floor as real
    ensures Trunc(x) as real == x
  {
    if x < 0.0 {
      var k := x.Floor;
      assert -x == (-k) as real;
      assert (-x).Floor == -k;
    }
  }

  /** Truncation keeps a lower integer bound. */
  lemma TruncAtLeast(x: real, lo: int)
    requires lo as real <= x
    ensures lo <= Trunc(x)
  {
    if x < 0.0 {
      assert -x <= -lo as real;
    }
  }

  /** The database file: a set of named tables. */
  class Database {
    var tables: map<string, Table>

    constructor (tables: map<string, Table>)
      ensures this.tables == tables
    {
      this.tables := tables;
    }
  }

  /** A connection to a database file; closing it is the only change it undergoes. */
  class Connection {
    const file: Database
    var open: bool

    constructor Open(file: Database)
      ensures this.file == file && open
    {
      this.file := file;
      open := true;
    }

    method Close()
      modifies this
      ensures !open
    {
      open := false;
    }
  }
}

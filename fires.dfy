/**
 * One row of the FIRMS MODIS_SP table, as `pd.read_csv` reads it from an API
 * response. The fields the program looks at are named; the other columns of
 * the row are kept verbatim in `otherColumns`, so two rows are equal (and
 * `drop_duplicates` takes one for a copy of the other) exactly when every
 * column agrees.
 */
module Fires {
  import opened Calendar

  datatype Detection = Detection(
    latitude: real,
    longitude: real,
    brightness: real,
    acqDate: Date,
    acqTime: int,
    confidence: int,
    frp: real,
    dayNight: char,
    otherColumns: seq<string>)

  /** `(df['acq_date'] >= lo) & (df['acq_date'] <= hi)` for one row. */
  predicate InPeriod(f: Detection, lo: Date, hi: Date) {
    NotAfter(lo, f.acqDate) && NotAfter(f.acqDate, hi)
  }
}

/**
 * Start-up decisions of the server (src/main.rs): reading a secondary
 * locale, deciding whether the cached TitleDB file must be downloaded again
 * or imported, and the hours and minutes the scheduler reports.
 *
 * Clock readings are nanosecond counts of the system clock, passed in; the
 * download, the import and the title count are inputs.
 */
module Startup {
  import opened Wrappers
  import opened Strings

  const INVALID_LOCALE := "Invalid locale string: "
  const NANOS_PER_SECOND: nat := 1_000_000_000
  /** A cached TitleDB file older than six hours is downloaded again. */
  const MAX_CACHE_AGE: nat := 6 * 3600 * NANOS_PER_SECOND
  const SECONDS_PER_HOUR: int := 3600
  const SECONDS_PER_MINUTE: int := 60

  /**
   * `parse_secondary_locale_string`: a locale with exactly one '_' is the
   * upper-cased region before it and the lower-cased language after it.
   */
  function ParseSecondaryLocale(locale: string): (r: Result<(string, string), string>)
    ensures r.Ok? <==> Count(locale, '_') == 1
    ensures r.Err? ==> r.error == INVALID_LOCALE + locale
    ensures r.Ok? ==> exists region, lang :: locale == region + "_" + lang && '_' !in region && '_' !in lang &&
                                             r.value == (ToUpper(region), ToLower(lang))
  {
    var parts := Split(locale, '_');
    SplitCount(locale, '_');
    if |parts| == 2 then
      assert locale == parts[0] + "_" + parts[1] by {
        assert Join(parts[1..], '_') == parts[1];
      }
      Ok((ToUpper(parts[0]), ToLower(parts[1])))
    else Err(INVALID_LOCALE + locale)
  }

  /** A region and a language without '_' are read back from `region_lang`. */
  lemma LocaleRoundTrip(region: string, lang: string)
    requires '_' !in region && '_' !in lang
    ensures ParseSecondaryLocale(region + "_" + lang) == Ok((ToUpper(region), ToLower(lang)))
  {
    SplitAroundOne(region, '_', lang);
    assert region + [ '_' ] + lang == region + "_" + lang;
  }

  /** The cached TitleDB file: missing, or present with a modification time that may not be readable. */
  datatype CacheFile = Missing | Present(modified: Option<nat>)

  /** `SystemTime::elapsed`, which fails for a time in the future; the caller then takes zero. */
  function Age(modified: nat, now: nat): (d: nat)
    ensures modified <= now ==> d == now - modified
    ensures now < modified ==> d == 0
  {
    if modified <= now then now - modified else 0
  }

  /** `should_download`: the file is missing, its time is unreadable, or it is more than six hours old. */
  predicate ShouldDownload(cache: CacheFile, now: nat)
  {
    match cache
    case Missing => true
    case Present(None) => true
    case Present(Some(modified)) => Age(modified, now) > MAX_CACHE_AGE
  }

  /** Once a download is due it stays due as time passes, and a file from the future is never stale. */
  lemma ShouldDownloadLater(cache: CacheFile, now: nat, later: nat)
    requires now <= later
    ensures ShouldDownload(cache, now) ==> ShouldDownload(cache, later)
    ensures cache.Present? && cache.modified.Some? && now < cache.modified.value ==> !ShouldDownload(cache, now)
    ensures cache.Present? && cache.modified.Some? && cache.modified.value <= now ==>
              (ShouldDownload(cache, now) <==> now - cache.modified.value > MAX_CACHE_AGE)
  {
  }

  /** The step `import_titledb` takes for a region and language. */
  datatype TitleDbStep =
    | Download(table: string)
    | ImportCached(fileName: string, table: string)
    | UpToDate
    | CountFailed(reason: string)

  /** The name of the cached file in the cache directory. */
  function CacheFileName(region: string, lang: string): string
  {
    region + "." + lang + ".json"
  }

  /** The table the TitleDB of a region and language is imported into. */
  function TableName(region: string, lang: string): string
  {
    region + "_" + lang
  }

  /**
   * `import_titledb`: a due download is made and imported, and nothing else
   * is checked; otherwise the cached file is imported only into an empty
   * table, and a table with data is left as it is. Every path returns `Ok`:
   * failures are only logged.
   */
  function ImportTitleDb(lang: string, region: string, cache: CacheFile, now: nat, count: Result<nat, string>)
    : (step: TitleDbStep)
    ensures step.Download? <==> ShouldDownload(cache, now)
    ensures step.Download? ==> step.table == TableName(region, lang)
    ensures step.ImportCached? <==> !ShouldDownload(cache, now) && count == Ok(0)
    ensures step.ImportCached? ==> step == ImportCached(CacheFileName(region, lang), TableName(region, lang))
    ensures step.UpToDate? <==> !ShouldDownload(cache, now) && count.Ok? && count.value > 0
    ensures step.CountFailed? <==> !ShouldDownload(cache, now) && count.Err?
  {
    if ShouldDownload(cache, now) then Download(TableName(region, lang))
    else
      match count
      case Err(e) => CountFailed(e)
      case Ok(n) => if n == 0 then ImportCached(CacheFileName(region, lang), TableName(region, lang)) else UpToDate
  }

  /** A due download does not look at the title count. */
  lemma DownloadIgnoresCount(lang: string, region: string, cache: CacheFile, now: nat,
                             count: Result<nat, string>, count': Result<nat, string>)
    requires ShouldDownload(cache, now)
    ensures ImportTitleDb(lang, region, cache, now, count) == ImportTitleDb(lang, region, cache, now, count')
  {
  }

  /** Rust's `/` on `i64`: the quotient rounded toward zero. */
  function TruncDiv(a: int, b: int): (q: int)
    requires b > 0
    ensures a >= 0 ==> q == a / b
    ensures a < 0 ==> q == -((-a) / b)
  {
    if a >= 0 then a / b else -((-a) / b)
  }

  /** Rust's `%` on `i64`: the remainder takes the sign of the dividend. */
  function TruncRem(a: int, b: int): (m: int)
    requires b > 0
    ensures TruncDiv(a, b) * b + m == a
  {
    a - TruncDiv(a, b) * b
  }

  /** The hours and minutes the scheduler logs for the seconds until the next run. */
  function ScheduleParts(seconds: int): (hm: (int, int))
  {
    (TruncDiv(seconds, SECONDS_PER_HOUR), TruncDiv(TruncRem(seconds, SECONDS_PER_HOUR), SECONDS_PER_MINUTE))
  }

  /**
   * For a run in the future the hours and minutes are the whole hours and
   * the whole minutes left over, so they add up to the wait with less than a
   * minute to spare.
   */
  lemma {:induction false} ScheduleCoversWait(seconds: int)
    requires seconds >= 0
    ensures var (hours, minutes) := ScheduleParts(seconds);
            && hours >= 0 && 0 <= minutes < 60
            && hours * 3600 + minutes * 60 <= seconds < hours * 3600 + minutes * 60 + 60
  {
    var hours := seconds / 3600;
    var rest := seconds % 3600;
    assert TruncRem(seconds, SECONDS_PER_HOUR) == rest;
    assert 0 <= rest < 3600;
    var minutes := rest / 60;
    assert minutes * 60 <= rest < minutes * 60 + 60;
  }

  /** A run in the past is reported with the same numbers, negated. */
  lemma {:induction false} ScheduleNegated(seconds: int)
    ensures ScheduleParts(-seconds) == (-ScheduleParts(seconds).0, -ScheduleParts(seconds).1)
    decreases if seconds < 0 then 1 else 0
  {
    if seconds < 0 {
      ScheduleNegated(-seconds);
      assert -(-seconds) == seconds;
    } else if seconds > 0 {
      var r := TruncRem(seconds, SECONDS_PER_HOUR);
      assert TruncRem(-seconds, SECONDS_PER_HOUR) == -r;
      assert TruncDiv(-r, SECONDS_PER_MINUTE) == -TruncDiv(r, SECONDS_PER_MINUTE);
    }
  }

  /** The scheduler sleeps only for a run in the future, and then for the whole wait. */
  function SleepSeconds(seconds: int): (s: nat)
    ensures s > 0 <==> seconds > 0
    ensures seconds > 0 ==> s == seconds
  {
    if seconds > 0 then seconds else 0
  }
}

/**
 * Version identity of a migration file: NumericComponent reads the version
 * number out of a name of the form `<version>_<description>.<go|sql>`.
 */
module Versions {
  import opened Results
  import opened Paths
  import opened StrConv

  /** The ways NumericComponent rejects a name. */
  datatype NameError =
    | UnrecognizedFileType     // the extension is neither ".go" nor ".sql"
    | NoSeparator              // the base name holds no '_'
    | NotPositive              // the version text parses to a value <= 0
    | Parse(kind: NumErrorKind) // ParseInt's own error, returned unchanged

  const Underscore: char := '_'

  /** The extensions of a Go migration and of a SQL script. */
  const GoExt: string := ".go"
  const SqlExt: string := ".sql"

  predicate RecognizedExt(e: string) {
    e == GoExt || e == SqlExt
  }

  /** The text before the first '_' of a base name that has one. */
  function VersionText(base: string): (t: string)
    requires !Free(base, Underscore)
    ensures Free(t, Underscore)
    ensures |t| < |base| && base[|t|] == Underscore && t == base[..|t|]
  {
    base[..IndexOf(base, Underscore)]
  }

  /** The version a version text denotes: ParseInt's result, refused unless positive. */
  function ParseVersion(t: string): (r: Result<Int64, NameError>)
    ensures r.Ok? <==> WellFormedInt(t) && 0 < SignedValue(t) <= MaxInt64
    ensures r.Ok? ==> r.value == SignedValue(t)
    ensures WellFormedInt(t) && MinInt64 <= SignedValue(t) <= 0 ==> r == Err(NotPositive)
    ensures WellFormedInt(t) && !(MinInt64 <= SignedValue(t) <= MaxInt64) ==> r == Err(Parse(ErrRange))
    ensures !WellFormedInt(t) ==> r.Err? && r.error.Parse?
    ensures r.Err? ==> r.error == NotPositive || r.error.Parse?
  {
    ParseIntSpec(t);
    match ParseInt(t)
    case Err(kind) => Err(Parse(kind))
    case Ok(n) => if n <= 0 then Err(NotPositive) else Ok(n)
  }

  /**
   * The version number of a migration file name, read from its base name:
   * the extension must be ".go" or ".sql", the name must hold a '_', and the
   * text before the first '_' must parse as a positive int64.
   */
  function NumericComponent(name: string): (r: Result<Int64, NameError>)
    ensures r.Ok? ==> r.value > 0
    ensures r == Err(UnrecognizedFileType) <==> !RecognizedExt(Ext(Base(name)))
    ensures r == Err(NoSeparator) <==> RecognizedExt(Ext(Base(name))) && Free(Base(name), Underscore)
  {
    VersionOfBase(Base(name))
  }

  /** NumericComponent once the base name is taken. */
  function VersionOfBase(base: string): (r: Result<Int64, NameError>)
    ensures r.Ok? ==> r.value > 0
    ensures r == Err(UnrecognizedFileType) <==> !RecognizedExt(Ext(base))
    ensures r == Err(NoSeparator) <==> RecognizedExt(Ext(base)) && Free(base, Underscore)
    ensures RecognizedExt(Ext(base)) && !Free(base, Underscore) ==> r == ParseVersion(VersionText(base))
  {
    var ext := Ext(base);
    if !RecognizedExt(ext) then Err(UnrecognizedFileType)
    else
      var idx := IndexOf(base, Underscore);
      if idx < 0 then Err(NoSeparator)
      else ParseVersion(base[..idx])
  }

  /** A name NumericComponent accepts, stated without reference to the parser's code. */
  predicate IsMigrationName(base: string) {
    && RecognizedExt(Ext(base))
    && !Free(base, Underscore)
    && WellFormedInt(VersionText(base))
    && 0 < SignedValue(VersionText(base)) <= MaxInt64
  }

  /**
   * NumericComponent succeeds exactly on migration names, with the decimal
   * value of the version text; a version text that is well formed but not
   * positive is NotPositive (or a range error below the int64 range), and
   * one that is not well formed is a parse error.
   */
  lemma NumericComponentSpec(name: string)
    ensures NumericComponent(name).Ok? <==> IsMigrationName(Base(name))
    ensures NumericComponent(name).Ok? ==> NumericComponent(name).value == SignedValue(VersionText(Base(name)))
    ensures var b := Base(name);
      RecognizedExt(Ext(b)) && !Free(b, Underscore) && WellFormedInt(VersionText(b))
      && MinInt64 <= SignedValue(VersionText(b)) <= 0
      ==> NumericComponent(name) == Err(NotPositive)
    ensures var b := Base(name);
      RecognizedExt(Ext(b)) && !Free(b, Underscore) && !WellFormedInt(VersionText(b))
      ==> NumericComponent(name).Err? && NumericComponent(name).error.Parse?
  {
    var b := Base(name);
    if RecognizedExt(Ext(b)) && !Free(b, Underscore) {
      assert NumericComponent(name) == ParseVersion(VersionText(b));
    }
  }

  /** Only the base name matters. */
  lemma NumericComponentOfBase(name: string)
    ensures NumericComponent(Base(name)) == NumericComponent(name)
  {
    BaseIdempotent(name);
  }

  /** The directory a migration file sits in never changes its version. */
  lemma NumericComponentIgnoresDir(dir: string, base: string)
    requires base != "" && Free(base, Separator)
    ensures NumericComponent(dir + [Separator] + base) == NumericComponent(base)
  {
    BaseOfJoin(dir, base);
    BaseOfName(base);
  }

  /** The file name a migration generator writes for version `n`. */
  function FileName(n: nat, description: string, ext: string): string {
    Decimal(n) + [Underscore] + description + ext
  }

  /**
   * Every positive int64 written in decimal in front of '_', with any
   * description and a ".go" or ".sql" extension, in any directory, is read
   * back as itself.
   */
  lemma NumericComponentRoundTrip(dir: string, n: Int64, description: string, ext: string)
    requires n > 0 && RecognizedExt(ext)
    requires Free(description, Separator)
    ensures NumericComponent(dir + [Separator] + FileName(n, description, ext)) == Ok(n)
  {
    var base := FileName(n, description, ext);
    FileNameParts(n, description, ext);
    NumericComponentIgnoresDir(dir, base);
    NumericComponentOfName(base);
    FormatIntRoundTrip(n);
    assert FormatInt(n) == Decimal(n);
  }

  /** On a plain name with a known extension and a separator, NumericComponent parses the version text. */
  lemma NumericComponentOfName(base: string)
    requires base != "" && Free(base, Separator)
    requires RecognizedExt(Ext(base)) && !Free(base, Underscore)
    ensures NumericComponent(base) == ParseVersion(VersionText(base))
  {
    BaseOfName(base);
  }

  /** The pieces NumericComponent finds in a generated file name. */
  lemma FileNameParts(n: nat, description: string, ext: string)
    requires RecognizedExt(ext) && Free(description, Separator)
    ensures var base := FileName(n, description, ext);
      && base != "" && Free(base, Separator)
      && Ext(base) == ext
      && !Free(base, Underscore) && VersionText(base) == Decimal(n)
  {
    var d := Decimal(n);
    var head := d + [Underscore] + description;
    var base := FileName(n, description, ext);
    assert base == head + ext;
    DigitsFree(d, Separator);
    FreeConcat(d + [Underscore], description, Separator);
    RecognizedExtShape(ext);
    FreeConcat(head, ext, Separator);
    ExtOfSuffix(head, ext);
    FileNameVersionText(d, description + ext);
    assert base == d + [Underscore] + (description + ext);
  }

  /** The version text of `<digits>_<rest>` is the digits. */
  lemma FileNameVersionText(d: string, rest: string)
    requires AllDigits(d)
    ensures !Free(d + [Underscore] + rest, Underscore)
    ensures VersionText(d + [Underscore] + rest) == d
  {
    DigitsFree(d, Underscore);
    var base := d + [Underscore] + rest;
    assert base == d + ([Underscore] + rest);
    IndexOfAfterFree(d, [Underscore] + rest, Underscore);
    assert base[|d|] == Underscore;
  }

  /** The two recognized extensions are a '.' followed by separator-free, dot-free text. */
  lemma RecognizedExtShape(ext: string)
    requires RecognizedExt(ext)
    ensures |ext| > 0 && ext[0] == '.' && Free(ext[1..], '.') && Free(ext, Separator)
  {
  }

  /** Digit strings hold no character other than digits. */
  lemma DigitsFree(s: string, c: char)
    requires AllDigits(s) && !IsDigit(c)
    ensures Free(s, c)
  {
  }

  lemma FreeConcat(a: string, b: string, c: char)
    requires Free(a, c) && Free(b, c)
    ensures Free(a + b, c)
  {
    forall i | 0 <= i < |a + b| ensures (a + b)[i] != c {
      if i >= |a| { assert (a + b)[i] == b[i - |a|]; }
    }
  }
}

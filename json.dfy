/**
 * The text encoding the program stores in localStorage, standing in for
 * `JSON.stringify` / `JSON.parse`. A list of strings is written as a JSON
 * array of string literals, escaping only `"` and `\`; parsing accepts exactly
 * that form and fails on anything else. A dataset is stored as the list of
 * its records' fields, six tagged strings per record.
 */
module Json {
  import opened Wrappers
  import Numbers
  import opened Records

  function Escape(s: string): string {
    if s == [] then []
    else (if s[0] == '"' || s[0] == '\\' then ['\\', s[0]] else [s[0]]) + Escape(s[1..])
  }

  function Quote(s: string): string {
    "\"" + Escape(s) + "\""
  }

  /** The array members, separated by commas. */
  function Items(l: seq<string>): string {
    if l == [] then ""
    else if |l| == 1 then Quote(l[0])
    else Quote(l[0]) + "," + Items(l[1..])
  }

  /** `JSON.stringify` of an array of strings. */
  function EncodeStrings(l: seq<string>): string {
    "[" + Items(l) + "]"
  }

  /** The inside of a string literal up to its closing quote: the text, and what follows it. */
  function ParseBody(t: string): (r: Option<(string, string)>)
    ensures r.Some? ==> |r.value.1| < |t|
  {
    if t == [] then None
    else if t[0] == '"' then Some(([], t[1..]))
    else if t[0] == '\\' then
      if |t| >= 2 && (t[1] == '"' || t[1] == '\\') then
        match ParseBody(t[2..])
        case None => None
        case Some(p) => Some(([t[1]] + p.0, p.1))
      else None
    else
      match ParseBody(t[1..])
      case None => None
      case Some(p) => Some(([t[0]] + p.0, p.1))
  }

  function ParseQuoted(t: string): (r: Option<(string, string)>)
    ensures r.Some? ==> |r.value.1| < |t|
  {
    if t != [] && t[0] == '"' then ParseBody(t[1..]) else None
  }

  /** Comma-separated string literals up to the closing bracket, which must end the text. */
  function ParseItems(t: string): Option<seq<string>>
    decreases |t|
  {
    match ParseQuoted(t)
    case None => None
    case Some(p) =>
      if p.1 == "]" then Some([p.0])
      else if p.1 != [] && p.1[0] == ',' then
        match ParseItems(p.1[1..])
        case None => None
        case Some(l) => Some([p.0] + l)
      else None
  }

  /** `JSON.parse`, for an array of strings; None when the text is not one. */
  function DecodeStrings(t: string): Option<seq<string>> {
    if t == "[]" then Some([])
    else if t != [] && t[0] == '[' then ParseItems(t[1..])
    else None
  }

  lemma {:induction false} ParseBodyOfEscape(s: string, rest: string)
    ensures ParseBody(Escape(s) + "\"" + rest) == Some((s, rest))
  {
    var t := Escape(s) + "\"" + rest;
    if s == [] {
      assert t == "\"" + rest;
    } else {
      ParseBodyOfEscape(s[1..], rest);
      assert [s[0]] + s[1..] == s;
      if s[0] == '"' || s[0] == '\\' {
        assert t == ['\\', s[0]] + (Escape(s[1..]) + "\"" + rest);
        assert t[2..] == Escape(s[1..]) + "\"" + rest;
      } else {
        assert t == [s[0]] + (Escape(s[1..]) + "\"" + rest);
        assert t[1..] == Escape(s[1..]) + "\"" + rest;
      }
    }
  }

  lemma ParseQuotedOfQuote(s: string, rest: string)
    ensures ParseQuoted(Quote(s) + rest) == Some((s, rest))
  {
    var t := Quote(s) + rest;
    assert t == "\"" + (Escape(s) + "\"" + rest);
    assert t[1..] == Escape(s) + "\"" + rest;
    ParseBodyOfEscape(s, rest);
  }

  /** The last member of an array, followed by the closing bracket. */
  lemma ParseLastItem(q: string)
    ensures ParseItems(Quote(q) + "]") == Some([q])
  {
    ParseQuotedOfQuote(q, "]");
  }

  /** A member followed by a comma and further members. */
  lemma ParseNextItem(q: string, tail: string)
    ensures ParseItems(Quote(q) + ("," + tail)) == match ParseItems(tail) case None => None case Some(l) => Some([q] + l)
  {
    var rest := "," + tail;
    ParseQuotedOfQuote(q, rest);
    assert rest[0] == ',' && rest != "]";
    assert rest[1..] == tail;
  }

  lemma {:induction false} ParseItemsOfItems(l: seq<string>)
    requires l != []
    ensures ParseItems(Items(l) + "]") == Some(l)
  {
    if |l| == 1 {
      assert Items(l) + "]" == Quote(l[0]) + "]";
      ParseLastItem(l[0]);
      assert [l[0]] == l;
    } else {
      var tail := Items(l[1..]) + "]";
      assert Items(l) + "]" == Quote(l[0]) + ("," + tail);
      ParseNextItem(l[0], tail);
      ParseItemsOfItems(l[1..]);
      assert [l[0]] + l[1..] == l;
    }
  }

  /** Parsing what was stringified gives back the same list. */
  lemma DecodeEncodeStrings(l: seq<string>)
    ensures DecodeStrings(EncodeStrings(l)) == Some(l)
  {
    if l != [] {
      var t := EncodeStrings(l);
      assert t != "[]" by {
        assert |Quote(l[0])| >= 2;
        assert |Items(l)| >= 2;
      }
      assert t[1..] == Items(l) + "]";
      ParseItemsOfItems(l);
    }
  }

  // --- Records as lists of tagged fields ---

  function EncodeId(id: Id): string {
    match id
    case StringId(t) => "s" + t
    case NumberId(n) => "n" + Numbers.IntToString(n)
  }

  function DecodeId(f: string): Option<Id> {
    if f != [] && f[0] == 's' then Some(StringId(f[1..]))
    else if f != [] && f[0] == 'n' then
      match Numbers.ParseInt(f[1..])
      case None => None
      case Some(n) => Some(NumberId(n))
    else None
  }

  /** A present field is written with a `+` tag, a missing one as `-`. */
  function EncodeField(f: Option<string>): string {
    match f
    case None => "-"
    case Some(v) => "+" + v
  }

  function DecodeField(f: string): Option<Option<string>> {
    if f == "-" then Some(None)
    else if f != [] && f[0] == '+' then Some(Some(f[1..]))
    else None
  }

  function RecordFields(r: Record): (fs: seq<string>)
    ensures |fs| == 6
  {
    [EncodeId(r.id), EncodeField(r.name), EncodeField(r.desc),
     EncodeField(r.url), EncodeField(r.medientyp), EncodeField(r.imageUrl)]
  }

  function DecodeRecord(fs: seq<string>): Option<Record>
    requires |fs| == 6
  {
    var id :- DecodeId(fs[0]);
    var name :- DecodeField(fs[1]);
    var desc :- DecodeField(fs[2]);
    var url :- DecodeField(fs[3]);
    var medientyp :- DecodeField(fs[4]);
    var imageUrl :- DecodeField(fs[5]);
    Some(Record(id, name, desc, url, medientyp, imageUrl))
  }

  function DatasetFields(d: seq<Record>): seq<string> {
    if d == [] then [] else RecordFields(d[0]) + DatasetFields(d[1..])
  }

  function DecodeRecords(fs: seq<string>): Option<seq<Record>>
    decreases |fs|
  {
    if fs == [] then Some([])
    else if |fs| < 6 then None
    else
      match (DecodeRecord(fs[..6]), DecodeRecords(fs[6..]))
      case (Some(r), Some(rs)) => Some([r] + rs)
      case _ => None
  }

  /** `JSON.stringify(data)` for a dataset. */
  function EncodeDataset(d: seq<Record>): string {
    EncodeStrings(DatasetFields(d))
  }

  /** `JSON.parse(text)` for a dataset; None when the text is not one. */
  function DecodeDataset(t: string): Option<seq<Record>> {
    match DecodeStrings(t)
    case None => None
    case Some(fs) => DecodeRecords(fs)
  }

  lemma DecodeIdOfEncode(id: Id)
    ensures DecodeId(EncodeId(id)) == Some(id)
  {
    match id
    case StringId(t) =>
      assert EncodeId(id)[1..] == t;
    case NumberId(n) =>
      assert EncodeId(id)[1..] == Numbers.IntToString(n);
      Numbers.ParseIntOfIntToString(n);
  }

  lemma DecodeFieldOfEncode(f: Option<string>)
    ensures DecodeField(EncodeField(f)) == Some(f)
  {
    if f.Some? {
      assert EncodeField(f)[1..] == f.value;
    }
  }

  lemma DecodeRecordOfFields(r: Record)
    ensures DecodeRecord(RecordFields(r)) == Some(r)
  {
    DecodeIdOfEncode(r.id);
    DecodeFieldOfEncode(r.name);
    DecodeFieldOfEncode(r.desc);
    DecodeFieldOfEncode(r.url);
    DecodeFieldOfEncode(r.medientyp);
    DecodeFieldOfEncode(r.imageUrl);
  }

  lemma {:induction false} DecodeRecordsOfFields(d: seq<Record>)
    ensures DecodeRecords(DatasetFields(d)) == Some(d)
  {
    if d != [] {
      var fs := DatasetFields(d);
      assert fs[..6] == RecordFields(d[0]) && fs[6..] == DatasetFields(d[1..]);
      DecodeRecordOfFields(d[0]);
      DecodeRecordsOfFields(d[1..]);
      assert [d[0]] + d[1..] == d;
    }
  }

  /** Parsing a stringified dataset gives back the same records in the same order. */
  lemma DecodeEncodeDataset(d: seq<Record>)
    ensures DecodeDataset(EncodeDataset(d)) == Some(d)
  {
    DecodeEncodeStrings(DatasetFields(d));
    DecodeRecordsOfFields(d);
  }
}

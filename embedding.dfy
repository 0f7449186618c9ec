/** The `embed` command's own logic: every matched file becomes a labeled
    document `From: "<file name>"` + newline + content, the documents are
    embedded in one batch, and label i is paired with vector i. The embedding
    model is an opaque batch function; vectors are of an opaque type `V`. */
module Embedding {
  import opened Prelude

  // ---------------------------------------------------------------------
  // Rust's Debug quoting of a file name (`{base_name:?}`)
  // ---------------------------------------------------------------------

  function HexDigit(d: nat): (c: char)
    requires d < 16
    ensures IsHexDigit(c) && HexValue(c) == d
  {
    if d < 10 then ('0' as int + d) as char else ('a' as int + d - 10) as char
  }

  predicate IsHexDigit(c: char)
  {
    '0' <= c <= '9' || 'a' <= c <= 'f'
  }

  function HexValue(c: char): nat
    requires IsHexDigit(c)
  {
    if '0' <= c <= '9' then c as int - '0' as int else c as int - 'a' as int + 10
  }

  /** Lower-case hexadecimal of a code below 256, without leading zeros. */
  function Hex(v: nat): string
    requires v < 256
  {
    if v < 16 then [HexDigit(v)] else [HexDigit(v / 16), HexDigit(v % 16)]
  }

  /** The characters that Debug formatting never copies as they are. */
  predicate NeedsEscape(c: char)
  {
    c < ' ' || c == '\U{7F}' || c == '"' || c == '\'' || c == '\\'
  }

  /** How Debug formatting writes one character of a file name inside double
      quotes (each character goes through `char::escape_debug`, which escapes
      both kinds of quote): the usual backslash escapes, `\u{..}` for the
      other ASCII control characters, and the character itself otherwise. */
  function EscapeChar(c: char): (e: string)
  {
    if c == '\0' then "\\0"
    else if c == '\t' then "\\t"
    else if c == '\r' then "\\r"
    else if c == '\n' then "\\n"
    else if c == '"' then "\\\""
    else if c == '\'' then "\\'"
    else if c == '\\' then "\\\\"
    else if c < ' ' || c == '\U{7F}' then "\\u{" + Hex(c as int) + "}"
    else [c]
  }

  /** Characters that need no escape are copied; every other one becomes a
      backslash escape written in printable ASCII, so that neither a bare
      double quote nor a control character ends up inside the quotes. */
  lemma EscapeCharShape(c: char)
    ensures |EscapeChar(c)| > 0
    ensures !NeedsEscape(c) ==> EscapeChar(c) == [c]
    ensures NeedsEscape(c) <==> EscapeChar(c)[0] == '\\'
    ensures NeedsEscape(c) ==> |EscapeChar(c)| >= 2
    ensures NeedsEscape(c) ==> forall k :: 0 <= k < |EscapeChar(c)| ==> ' ' <= EscapeChar(c)[k] < '\U{7F}'
  {
    if c < ' ' || c == '\U{7F}' {
      var v := c as int;
      if c != '\0' && c != '\t' && c != '\r' && c != '\n' {
        if v < 16 {
          assert EscapeChar(c) == "\\u{" + [HexDigit(v)] + "}";
        } else {
          assert EscapeChar(c) == "\\u{" + [HexDigit(v / 16), HexDigit(v % 16)] + "}";
        }
      }
    }
  }

  function EscapeBody(s: string): string
  {
    if s == [] then [] else EscapeChar(s[0]) + EscapeBody(s[1..])
  }

  /** The name as `{:?}` prints it: escaped and between double quotes. */
  function Quoted(s: string): string
  {
    "\"" + EscapeBody(s) + "\""
  }

  /** The character that a one-letter escape `\<e>` stands for. */
  function SimpleEscape(e: char): Option<char>
  {
    if e == '0' then Some('\0')
    else if e == 't' then Some('\t')
    else if e == 'r' then Some('\r')
    else if e == 'n' then Some('\n')
    else if e == '"' || e == '\'' || e == '\\' then Some(e)
    else None
  }

  /** Reads the `{h}` or `{hh}` that follows `\u` at the start of `s`. */
  function ReadUnicodeEscape(s: string): Option<(char, nat)>
    requires |s| >= 2 && s[1] == 'u'
  {
    if |s| < 5 || s[2] != '{' || !IsHexDigit(s[3]) then None
    else if s[4] == '}' then Some((HexValue(s[3]) as char, 5))
    else if |s| >= 6 && IsHexDigit(s[4]) && s[5] == '}' then
      Some(((16 * HexValue(s[3]) + HexValue(s[4])) as char, 6))
    else None
  }

  /** Reads one escape sequence at the start of `s`: the character it stands
      for and its length. */
  function ReadEscape(s: string): Option<(char, nat)>
    requires |s| > 0 && s[0] == '\\'
  {
    if |s| < 2 then None
    else if s[1] == 'u' then ReadUnicodeEscape(s)
    else
      match SimpleEscape(s[1])
      case None => None
      case Some(c) => Some((c, 2))
  }

  /** Reads one character of a quoted body: an escape sequence, or any other
      character but the closing quote as it is. */
  function ReadChar(s: string): Option<(char, nat)>
    requires |s| > 0 && s[0] != '"'
  {
    if s[0] == '\\' then ReadEscape(s) else Some((s[0], 1))
  }

  /** Reads the body of a quoted string (the text after the opening quote) up
      to its closing quote: the decoded text and the number of characters
      read, closing quote included. */
  function ReadQuoted(s: string): Option<(string, nat)>
    decreases |s|
  {
    if s == [] then None
    else if s[0] == '"' then Some(([], 1))
    else
      match ReadChar(s)
      case None => None
      case Some((c, k)) =>
        if k == 0 || k > |s| then None
        else
          match ReadQuoted(s[k..])
          case None => None
          case Some((t, m)) => Some(([c] + t, k + m))
  }

  lemma ReadEscapeChar(c: char, rest: string)
    requires EscapeChar(c)[0] == '\\'
    ensures ReadEscape(EscapeChar(c) + rest) == Some((c, |EscapeChar(c)|))
  {
    var e := EscapeChar(c) + rest;
    if c < ' ' || c == '\U{7F}' {
      var v := c as int;
      if c != '\0' && c != '\t' && c != '\r' && c != '\n' {
        if v < 16 {
          assert e[3] == HexDigit(v) && e[4] == '}';
        } else {
          assert e[3] == HexDigit(v / 16) && e[4] == HexDigit(v % 16) && e[5] == '}';
          assert 16 * (v / 16) + v % 16 == v;
        }
      }
    }
  }

  /** Every written character, escaped or not, reads back as itself. */
  lemma ReadCharOf(c: char, rest: string)
    ensures |EscapeChar(c) + rest| > 0 && (EscapeChar(c) + rest)[0] != '"'
    ensures ReadChar(EscapeChar(c) + rest) == Some((c, |EscapeChar(c)|))
  {
    if NeedsEscape(c) {
      ReadEscapeChar(c, rest);
    }
  }

  /** One step of the reader: a character, then the rest of the body. */
  lemma ReadQuotedStep(s: string, c: char, k: nat, u: string, m: nat)
    requires |s| > 0 && s[0] != '"' && ReadChar(s) == Some((c, k)) && 0 < k <= |s|
    requires ReadQuoted(s[k..]) == Some((u, m))
    ensures ReadQuoted(s) == Some(([c] + u, k + m))
  {
  }

  /** Reading past one escaped character: the reader decodes it and goes on
      with what follows. */
  lemma ReadQuotedCons(c: char, t: string, u: string, m: nat)
    requires ReadQuoted(t) == Some((u, m))
    ensures ReadQuoted(EscapeChar(c) + t) == Some(([c] + u, |EscapeChar(c)| + m))
  {
    var e := EscapeChar(c);
    ReadCharOf(c, t);
    assert (e + t)[|e|..] == t;
    ReadQuotedStep(e + t, c, |e|, u, m);
  }

  /** The escaped name, its closing quote and whatever follows, built one
      character at a time as the reader takes it apart. */
  function Encoded(name: string, rest: string): (s: string)
    ensures |s| > |rest|
  {
    if name == [] then "\"" + rest else EscapeChar(name[0]) + Encoded(name[1..], rest)
  }

  /** `Encoded` is the escaped name, the closing quote and what follows. */
  lemma {:induction false} EncodedIsBody(name: string, rest: string)
    ensures Encoded(name, rest) == EscapeBody(name) + "\"" + rest
    decreases |name|
  {
    if name != [] {
      EncodedIsBody(name[1..], rest);
      assert EscapeBody(name) == EscapeChar(name[0]) + EscapeBody(name[1..]);
    }
  }

  /** The reader takes an encoded name apart character by character, and
      stops right after the closing quote. */
  lemma {:induction false} ReadEncoded(name: string, rest: string)
    ensures ReadQuoted(Encoded(name, rest)) == Some((name, |Encoded(name, rest)| - |rest|))
    decreases |name|
  {
    if name != [] {
      var t := Encoded(name[1..], rest);
      ReadEncoded(name[1..], rest);
      ReadQuotedCons(name[0], t, name[1..], |t| - |rest|);
      assert [name[0]] + name[1..] == name;
    }
  }

  /** Quoting round trip: the reader recovers the name from its quoted form,
      whatever follows the closing quote. */
  lemma ReadQuotedRoundTrip(name: string, rest: string)
    ensures ReadQuoted(EscapeBody(name) + "\"" + rest) == Some((name, |EscapeBody(name)| + 1))
  {
    EncodedIsBody(name, rest);
    ReadEncoded(name, rest);
  }

  /** The quoted form of a name reads back as the name, up to and including
      its closing quote. */
  lemma QuotedReadsBack(name: string)
    ensures ReadQuoted(Quoted(name)[1..]) == Some((name, |Quoted(name)| - 1))
  {
    ReadQuotedRoundTrip(name, []);
    QuotedShape(name);
  }

  /** The quoted form is the escaped name between two double quotes. */
  lemma QuotedShape(name: string)
    ensures |Quoted(name)| >= 2 && Quoted(name)[0] == '"' && Quoted(name)[|Quoted(name)| - 1] == '"'
    ensures Quoted(name)[1..] == EscapeBody(name) + "\"" + []
    ensures |Quoted(name)| - 1 == |EscapeBody(name)| + 1
  {
  }

  // ---------------------------------------------------------------------
  // Labeled documents
  // ---------------------------------------------------------------------

  /** The text that is embedded for a file: a provenance line naming the file,
      then the file's content. */
  function Label(fileName: string, content: string): string
  {
    "From: " + Quoted(fileName) + "\n" + content
  }

  /** Recovers the file name and the content from a label. */
  function ParseLabel(text: string): Option<(string, string)>
  {
    if |text| < 7 || text[..7] != "From: \"" then None
    else ParseNameLine(text[7..])
  }

  /** Recovers the file name and the content from what follows the opening
      quote of a label: the rest of the quoted name, a line break, the content. */
  function ParseNameLine(s: string): Option<(string, string)>
  {
    match ReadQuoted(s)
    case None => None
    case Some((name, k)) =>
      if k < |s| && s[k] == '\n' then Some((name, s[k + 1..])) else None
  }

  /** A label determines the file it came from and its content. */
  lemma LabelRoundTrip(fileName: string, content: string)
    ensures ParseLabel(Label(fileName, content)) == Some((fileName, content))
  {
    var k := |EscapeBody(fileName)| + 1;
    ReadQuotedRoundTrip(fileName, "\n" + content);
    LabelShape(fileName, content);
    ParseLabelOf(Label(fileName, content), EscapeBody(fileName) + "\"" + ("\n" + content), fileName, k, content);
  }

  /** A label is the opening `From: "`, the escaped name, the closing quote,
      a line break and the content. */
  lemma LabelShape(fileName: string, content: string)
    ensures var q := EscapeBody(fileName) + "\"" + ("\n" + content);
      && Label(fileName, content) == "From: \"" + q
      && |EscapeBody(fileName)| + 1 < |q|
      && q[|EscapeBody(fileName)| + 1] == '\n'
      && q[|EscapeBody(fileName)| + 1 + 1..] == content
  {
    var q := EscapeBody(fileName) + "\"" + ("\n" + content);
    assert Label(fileName, content) == "From: \"" + q;
    assert q[|EscapeBody(fileName)| + 1 + 1..] == content;
  }

  /** `ParseLabel` on the opening of a label followed by a quoted name that
      reads back as `name`, a line break and the content. */
  lemma ParseLabelOf(text: string, q: string, name: string, k: nat, content: string)
    requires text == "From: \"" + q
    requires ReadQuoted(q) == Some((name, k)) && k < |q| && q[k] == '\n' && q[k + 1..] == content
    ensures ParseLabel(text) == Some((name, content))
  {
    assert text[..7] == "From: \"" && text[7..] == q;
  }

  /** Distinct files give distinct labels. */
  lemma LabelInjective(n1: string, c1: string, n2: string, c2: string)
    requires Label(n1, c1) == Label(n2, c2)
    ensures n1 == n2 && c1 == c2
  {
    LabelRoundTrip(n1, c1);
    LabelRoundTrip(n2, c2);
  }

  /** One entry of the glob expansion: a file that was read, or the reason it
      could not be. */
  datatype Entry =
    | Readable(fileName: string, content: string)
    | GlobFailed
    | ReadFailed

  function EntryError(e: Entry): Error
    requires !e.Readable?
  {
    if e.GlobFailed? then GlobError else IoError
  }

  predicate AllReadable(entries: seq<Entry>)
  {
    forall i :: 0 <= i < |entries| ==> entries[i].Readable?
  }

  /** The labeled documents of a fully readable file list, in glob order. */
  function Documents(entries: seq<Entry>): (docs: seq<string>)
    requires AllReadable(entries)
  {
    if entries == [] then []
    else [Label(entries[0].fileName, entries[0].content)] + Documents(entries[1..])
  }

  /** Document i carries the name and content of file i, and can be parsed
      back into them. */
  lemma {:induction false} DocumentsProvenance(entries: seq<Entry>)
    requires AllReadable(entries)
    ensures |Documents(entries)| == |entries|
    ensures forall i :: 0 <= i < |entries| ==>
              Documents(entries)[i] == Label(entries[i].fileName, entries[i].content)
    ensures forall i :: 0 <= i < |entries| ==>
              ParseLabel(Documents(entries)[i]) == Some((entries[i].fileName, entries[i].content))
  {
    if entries != [] {
      DocumentsProvenance(entries[1..]);
      LabelRoundTrip(entries[0].fileName, entries[0].content);
      forall i | 0 < i < |entries|
        ensures Documents(entries)[i] == Documents(entries[1..])[i - 1]
      {
      }
    }
  }

  /** The loop that reads the matched files in order and pushes one labeled
      document per file; the first entry that cannot be read aborts it. */
  method BuildDocuments(entries: seq<Entry>) returns (r: Result<seq<string>>)
    ensures r.Ok? <==> AllReadable(entries)
    ensures r.Ok? ==> r.value == Documents(entries)
    ensures r.Err? ==> exists i :: 0 <= i < |entries| && !entries[i].Readable?
                          && r.error == EntryError(entries[i])
                          && forall j :: 0 <= j < i ==> entries[j].Readable?
  {
    var documents := [];
    for i := 0 to |entries|
      invariant AllReadable(entries[..i])
      invariant documents == Documents(entries[..i])
    {
      var entry := entries[i];
      if !entry.Readable? {
        assert forall j :: 0 <= j < i ==> entries[..i][j] == entries[j];
        return Err(EntryError(entry));
      }
      DocumentsAppend(entries[..i], entry);
      assert entries[..i + 1] == entries[..i] + [entry];
      documents := documents + [Label(entry.fileName, entry.content)];
    }
    assert entries[..|entries|] == entries;
    r := Ok(documents);
  }

  lemma {:induction false} DocumentsAppend(entries: seq<Entry>, e: Entry)
    requires AllReadable(entries) && e.Readable?
    ensures AllReadable(entries + [e])
    ensures Documents(entries + [e]) == Documents(entries) + [Label(e.fileName, e.content)]
  {
    if entries != [] {
      assert (entries + [e])[1..] == entries[1..] + [e];
      DocumentsAppend(entries[1..], e);
    }
  }

  // ---------------------------------------------------------------------
  // Records
  // ---------------------------------------------------------------------

  /** One stored embedding: the labeled text and its vector. */
  datatype Record<V> = Record(document: string, vector: V)

  /** Pairs labels with vectors position by position, stopping at the end of
      the shorter sequence. */
  function Zip<V>(documents: seq<string>, vectors: seq<V>): (r: seq<Record<V>>)
    ensures |r| == Min(|documents|, |vectors|)
    ensures forall i :: 0 <= i < |r| ==> r[i] == Record(documents[i], vectors[i])
  {
    if documents == [] || vectors == [] then []
    else [Record(documents[0], vectors[0])] + Zip(documents[1..], vectors[1..])
  }

  /** The `embed` command from the glob expansion to the records it stores.
      `embed` is the model's batch call; `None` is a model failure. */
  method EmbedCommand<V>(entries: seq<Entry>, embed: seq<string> -> Option<seq<V>>)
    returns (r: Result<seq<Record<V>>>)
    ensures !AllReadable(entries) ==>
              exists i :: 0 <= i < |entries| && !entries[i].Readable?
                && r == Err(EntryError(entries[i]))
                && forall j :: 0 <= j < i ==> entries[j].Readable?
    ensures AllReadable(entries) && embed(Documents(entries)).None? ==> r == Err(EmbeddingError)
    ensures AllReadable(entries) && embed(Documents(entries)).Some? ==>
              var vectors := embed(Documents(entries)).value;
              r.Ok? && |r.value| == Min(|entries|, |vectors|)
              && forall i :: 0 <= i < |r.value| ==>
                   r.value[i].vector == vectors[i]
                   && r.value[i].document == Label(entries[i].fileName, entries[i].content)
                   && ParseLabel(r.value[i].document) == Some((entries[i].fileName, entries[i].content))
  {
    var documents := BuildDocuments(entries);
    if documents.Err? {
      return Err(documents.error);
    }
    var embeddings := embed(documents.value);
    if embeddings.None? {
      return Err(EmbeddingError);
    }
    DocumentsProvenance(entries);
    r := Ok(Zip(documents.value, embeddings.value));
  }
}

/**
 * `escape`: one cell of a row becomes one SQL literal, tried in this order:
 * NULL marker, text ending in ".0" that parses as a float, decimal integer,
 * any other float, and finally a single-quoted string with quotes doubled.
 */
module Escaping {
  import opened Common
  import opened PyStr

  /**
   * The floating-point side of `escape`, left abstract: whether `float(val)`
   * succeeds, the text `str(int(float(val)))` and the text `str(float(val))`.
   */
  datatype FloatSyntax = FloatSyntax(parses: string -> bool, truncated: string -> string, shown: string -> string)

  /** The default `null_values` of `to_sql`. */
  const DefaultNullValues: seq<string> := ["", "null", "NULL"]

  /** What `escape` compares against the NULL markers: `val.strip().lower()`. */
  function NullKey(val: string): string {
    Lower(Strip(val))
  }

  /** `val.replace("'", "''")` */
  function DoubleQuotes(s: string): string {
    if s == [] then "" else (if s[0] == '\'' then "''" else [s[0]]) + DoubleQuotes(s[1..])
  }

  /** A SQL string literal. */
  function Quote(val: string): string {
    "'" + DoubleQuotes(val) + "'"
  }

  /**
   * How SQL reads the body of a string literal: `''` stands for one quote;
   * a lone quote would end the literal early, so the body is malformed.
   */
  function UnquoteBody(t: string): Option<string> {
    if t == [] then Some("")
    else if t[0] != '\'' then
      match UnquoteBody(t[1..]) { case Some(rest) => Some([t[0]] + rest) case None => None }
    else if |t| >= 2 && t[1] == '\'' then
      match UnquoteBody(t[2..]) { case Some(rest) => Some("'" + rest) case None => None }
    else None
  }

  function Escape(val: string, nullValues: seq<string>, floats: FloatSyntax): string {
    if NullKey(val) in nullValues then "NULL"
    else if EndsWith(val, ".0") && floats.parses(val) then floats.truncated(val)
    else if IsIntText(val) then DecimalText(IntValue(val))
    else if floats.parses(val) then floats.shown(val)
    else Quote(val)
  }

  lemma {:induction false} UnquoteDoubled(s: string)
    ensures UnquoteBody(DoubleQuotes(s)) == Some(s)
  {
    if s != [] {
      UnquoteDoubled(s[1..]);
      var d := DoubleQuotes(s);
      assert s == [s[0]] + s[1..];
      if s[0] == '\'' {
        assert d[0] == '\'' && d[1] == '\'' && d[2..] == DoubleQuotes(s[1..]);
      } else {
        assert d[0] == s[0] && d[1..] == DoubleQuotes(s[1..]);
      }
    }
  }

  /** Every well-formed literal body is the doubling of exactly one string. */
  lemma {:induction false} DoubledUnquote(t: string, s: string)
    requires UnquoteBody(t) == Some(s)
    ensures DoubleQuotes(s) == t
    decreases |t|
  {
    if t != [] {
      if t[0] != '\'' {
        var rest := UnquoteBody(t[1..]).value;
        DoubledUnquote(t[1..], rest);
        assert s == [t[0]] + rest && s[1..] == rest;
      } else {
        var rest := UnquoteBody(t[2..]).value;
        DoubledUnquote(t[2..], rest);
        assert s == "'" + rest && s[1..] == rest;
        assert t == "''" + t[2..];
      }
    }
  }

  /** The NULL markers are tried first: no numeric or string rule can override them. */
  lemma NullMarkerFirst(val: string, nullValues: seq<string>, floats: FloatSyntax)
    requires NullKey(val) in nullValues
    ensures Escape(val, nullValues, floats) == "NULL"
  {
  }

  /**
   * Outside the float rules, `escape` yields `NULL` exactly for the values whose
   * trimmed, lower-cased text is a marker.
   */
  lemma EscapeNullExactly(val: string, nullValues: seq<string>, floats: FloatSyntax)
    requires !floats.parses(val)
    ensures Escape(val, nullValues, floats) == "NULL" <==> NullKey(val) in nullValues
  {
    if NullKey(val) !in nullValues && IsIntText(val) {
      DecimalTextRoundTrip(IntValue(val));
      var r := DecimalText(IntValue(val));
      assert r[0] == '-' || IsDigit(r[0]);
      assert r != "NULL";
    } else if NullKey(val) !in nullValues {
      assert Quote(val)[0] == '\'';
    }
  }

  /** An integer text holds no dot, so it never takes the ".0" float route. */
  lemma IntTextHasNoDot(s: string)
    requires IsIntText(s)
    ensures forall i :: 0 <= i < |s| ==> s[i] != '.'
  {
    forall i | 0 <= i < |s|
      ensures s[i] != '.'
    {
      if i > 0 && (s[0] == '+' || s[0] == '-') {
        assert s[1..][i - 1] == s[i];
      }
    }
  }

  /**
   * A non-NULL integer text comes out unquoted, as the canonical decimal text of
   * the same integer (no `+`, no leading zeros); canonical input comes out as is.
   */
  lemma EscapeInteger(val: string, nullValues: seq<string>, floats: FloatSyntax)
    requires NullKey(val) !in nullValues && IsIntText(val)
    ensures var r := Escape(val, nullValues, floats);
      IsCanonicalInt(r) && IntValue(r) == IntValue(val) &&
      (IsCanonicalInt(val) ==> r == val)
  {
    IntTextHasNoDot(val);
    assert !EndsWith(val, ".0") by {
      if |val| >= 2 {
        assert val[|val| - 2..][0] == val[|val| - 2];
      }
    }
    DecimalTextRoundTrip(IntValue(val));
    if IsCanonicalInt(val) {
      CanonicalIntFixed(val);
    }
  }

  /**
   * A value that is neither NULL nor numeric becomes a quoted literal that SQL
   * reads back as the original value.
   */
  lemma EscapeStringRoundTrip(val: string, nullValues: seq<string>, floats: FloatSyntax)
    requires NullKey(val) !in nullValues && !IsIntText(val) && !floats.parses(val)
    ensures var r := Escape(val, nullValues, floats);
      |r| >= 2 && r[0] == '\'' && r[|r| - 1] == '\'' &&
      UnquoteBody(r[1..|r| - 1]) == Some(val)
  {
    var r := Escape(val, nullValues, floats);
    assert r[1..|r| - 1] == DoubleQuotes(val);
    UnquoteDoubled(val);
  }

  /** The key is lower-cased, so it is never the upper-case marker "NULL". */
  lemma NullKeyNotUpper(val: string)
    ensures NullKey(val) != "NULL"
  {
    var k := NullKey(val);
    if |k| == 4 {
      assert k[0] == LowerChar(Strip(val)[0]);
      assert k[0] != 'N';
    }
  }

  /**
   * The key is lower-cased before the lookup, so the default marker "NULL" can
   * never match: the defaults behave exactly like ["", "null"].
   */
  lemma DefaultUpperNullUnreachable(val: string, floats: FloatSyntax)
    ensures NullKey(val) != "NULL"
    ensures Escape(val, DefaultNullValues, floats) == Escape(val, ["", "null"], floats)
  {
    var k := NullKey(val);
    NullKeyNotUpper(val);
    assert k in DefaultNullValues <==> k == "" || k == "null" || k == "NULL";
    assert k in ["", "null"] <==> k == "" || k == "null";
  }
}

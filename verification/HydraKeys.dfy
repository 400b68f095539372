/** Subkeys of the Hydra framework: how the columns a record is restricted to, and their values, are
    written as one string. */
module HydraKeys {
  import opened Wrappers

  const MAX_KEY_COLUMNS: nat := 16

  datatype Pair = Pair(column: string, value: string)

  // ---------------------------------------------------------------- escaping

  predicate Structural(c: char) {
    c == '\\' || c == ':' || c == ';'
  }

  function EscapeChar(c: char): string {
    if Structural(c) then ['\\', c] else [c]
  }

  function Escape(s: string): string {
    if s == [] then [] else EscapeChar(s[0]) + Escape(s[1..])
  }

  /** The escaped form of a string, character by character. */
  method PushEscaped(out0: string, s: string) returns (out: string)
    ensures out == out0 + Escape(s)
  {
    out := out0;
    var i := 0;
    while i < |s|
      invariant i <= |s| && out + Escape(s[i..]) == out0 + Escape(s)
    {
      assert s[i..][1..] == s[i + 1..];
      if Structural(s[i]) {
        out := out + ['\\'];
      }
      out := out + [s[i]];
      i := i + 1;
    }
  }

  /** How many characters of a string are a backslash, a colon or a semicolon. */
  ghost function Specials(s: string): nat {
    if s == [] then 0 else (if s[0] in {'\\', ':', ';'} then 1 else 0) + Specials(s[1..])
  }

  /** Escaping adds one character for each of these and none for any other, so that plain text is left as
      it is. */
  lemma {:induction false} EscapeAdds(s: string)
    ensures |Escape(s)| == |s| + Specials(s)
    ensures Specials(s) == 0 ==> Escape(s) == s
  {
    if s != [] {
      EscapeAdds(s[1..]);
    }
  }

  // ---------------------------------------------------------------- reading back

  /** Whether a token ends before `s`. */
  predicate AtEnd(s: string) {
    s == [] || s[0] == ':' || s[0] == ';'
  }

  /** Reads an escaped token: what it stands for, and what follows it. */
  function ReadToken(s: string): (r: (string, string))
    ensures |r.1| <= |s|
  {
    if AtEnd(s) then ("", s)
    else if s[0] == '\\' && |s| >= 2 then
      var (token, rest) := ReadToken(s[2..]);
      ([s[1]] + token, rest)
    else
      var (token, rest) := ReadToken(s[1..]);
      ([s[0]] + token, rest)
  }

  /** Reading one escaped character. */
  lemma {:induction false} ReadChar(c: char, u: string)
    ensures var (token, rest) := ReadToken(u); ReadToken(EscapeChar(c) + u) == ([c] + token, rest)
  {
    var s := EscapeChar(c) + u;
    if Structural(c) {
      assert s[0] == '\\' && s[1] == c && s[2..] == u;
    } else {
      assert s[0] == c && s[1..] == u;
    }
  }

  /** Reading a token undoes escaping it. */
  lemma {:induction false} ReadEscaped(t: string, rest: string)
    requires AtEnd(rest)
    ensures ReadToken(Escape(t) + rest) == (t, rest)
  {
    if t == [] {
      assert Escape(t) + rest == rest;
    } else {
      assert Escape(t) == EscapeChar(t[0]) + Escape(t[1..]);
      hide Escape, ReadToken, EscapeChar;
      ReadEscaped(t[1..], rest);
      ReadChar(t[0], Escape(t[1..]) + rest);
      Associate(EscapeChar(t[0]), Escape(t[1..]), rest);
      HeadTail(t);
    }
  }

  lemma Associate(a: string, b: string, c: string)
    ensures (a + b) + c == a + (b + c)
  {
  }

  lemma HeadTail<T>(s: seq<T>)
    requires s != []
    ensures [s[0]] + s[1..] == s
  {
  }

  /** The label-value pairs of an encoded subkey. */
  function Decode(s: string): seq<Pair>
    decreases |s|
  {
    if s == [] then []
    else
      var (column, afterColumn) := ReadToken(s);
      if afterColumn == [] then []
      else
        var (value, rest) := ReadToken(afterColumn[1..]);
        [Pair(column, value)] + if rest == [] then [] else Decode(rest[1..])
  }

  // ---------------------------------------------------------------- masks

  function Pow2(n: nat): (p: nat)
    ensures p >= 1
  {
    if n == 0 then 1 else 2 * Pow2(n - 1)
  }

  /** Bit `i` of a mask. */
  predicate Bit(mask: nat, i: nat) {
    if i == 0 then mask % 2 == 1 else Bit(mask / 2, i - 1)
  }

  /** A mask below 2^n is determined by its bits. */
  lemma {:induction false} BitsDetermine(a: nat, b: nat, n: nat)
    requires a < Pow2(n) && b < Pow2(n) && forall i :: 0 <= i < n ==> (Bit(a, i) <==> Bit(b, i))
    ensures a == b
  {
    if n > 0 {
      forall i | 0 <= i < n - 1 ensures Bit(a / 2, i) <==> Bit(b / 2, i) {
        assert Bit(a, i + 1) <==> Bit(b, i + 1);
      }
      BitsDetermine(a / 2, b / 2, n - 1);
      assert Bit(a, 0) <==> Bit(b, 0);
    }
  }

  // ---------------------------------------------------------------- encoding

  /** The pairs a mask selects among the columns from `col` on, in declaration order. */
  function Selected(labels: seq<string>, values: seq<string>, mask: nat, col: nat): seq<Pair>
    requires |values| == |labels|
    decreases |labels| - col
  {
    if col >= |labels| then []
    else if Bit(mask, col) then [Pair(labels[col], values[col])] + Selected(labels, values, mask, col + 1)
    else Selected(labels, values, mask, col + 1)
  }

  /** Pairs written one after the other, `;` before each but the first. */
  function Write(pairs: seq<Pair>, first: bool): string {
    if pairs == [] then []
    else
      (if first then [] else ";") + Escape(pairs[0].column) + ":" + Escape(pairs[0].value) + Write(pairs[1..], false)
  }

  /** The subkey of the subpopulation that fixes the columns of `mask`. */
  function Subkey(labels: seq<string>, values: seq<string>, mask: nat): string
    requires |values| == |labels|
  {
    Write(Selected(labels, values, mask, 0), true)
  }

  /** For plain text a subkey is the documented one: `label:value` for each column of the mask, joined by
      semicolons. */
  ghost function Joined(pairs: seq<Pair>): string {
    if pairs == [] then ""
    else if |pairs| == 1 then pairs[0].column + ":" + pairs[0].value
    else pairs[0].column + ":" + pairs[0].value + ";" + Joined(pairs[1..])
  }

  lemma {:induction false} PlainWrite(pairs: seq<Pair>)
    requires forall i :: 0 <= i < |pairs| ==> Specials(pairs[i].column) == 0 && Specials(pairs[i].value) == 0
    ensures Write(pairs, true) == Joined(pairs)
  {
    hide Escape, Specials;
    if pairs != [] {
      EscapeAdds(pairs[0].column);
      EscapeAdds(pairs[0].value);
      PlainWrite(pairs[1..]);
      if |pairs| > 1 {
        WriteNext(pairs[1..]);
        assert Write(pairs, true) == [] + pairs[0].column + ":" + pairs[0].value + Write(pairs[1..], false);
      } else {
        assert Write(pairs[1..], false) == [];
      }
    }
  }

  lemma {:induction false} WriteNext(pairs: seq<Pair>)
    requires pairs != []
    ensures Write(pairs, false) == ";" + Write(pairs, true)
    ensures Write(pairs, true) == Escape(pairs[0].column) + (":" + (Escape(pairs[0].value) + Write(pairs[1..], false)))
  {
    var a, b, rest := Escape(pairs[0].column), Escape(pairs[0].value), Write(pairs[1..], false);
    Punctuate(a, b, rest);
    assert Write(pairs, false) == ";" + a + ":" + b + rest;
    assert Write(pairs, true) == [] + a + ":" + b + rest;
    hide Escape, Write;
  }

  lemma Punctuate(a: string, b: string, rest: string)
    ensures [] + a + ":" + b + rest == a + (":" + (b + rest))
    ensures ";" + a + ":" + b + rest == ";" + ([] + a + ":" + b + rest)
  {
  }

  /** Decoding reads off the first pair. */
  lemma {:induction false} DecodeFirst(p: Pair, tail: string, s: string)
    requires tail == [] || tail[0] == ';'
    requires s == Escape(p.column) + (":" + (Escape(p.value) + tail))
    ensures Decode(s) == [p] + if tail == [] then [] else Decode(tail[1..])
  {
    var afterColumn := ":" + (Escape(p.value) + tail);
    hide Escape, ReadToken;
    ReadEscaped(p.column, afterColumn);
    ReadEscaped(p.value, tail);
    assert afterColumn[1..] == Escape(p.value) + tail;
    assert |s| >= |afterColumn| >= 1;
  }

  /** Decoding undoes encoding, whatever characters labels and values consist of. */
  lemma {:induction false} DecodeWritten(pairs: seq<Pair>)
    ensures Decode(Write(pairs, true)) == pairs
  {
    if pairs != [] {
      var tail := Write(pairs[1..], false);
      WriteNext(pairs);
      DecodeWritten(pairs[1..]);
      if |pairs| > 1 {
        WriteNext(pairs[1..]);
      } else {
        WriteNone(false);
      }
      hide Escape, Decode, Write;
      assert tail != [] ==> tail[1..] == Write(pairs[1..], true);
      DecodeFirst(pairs[0], tail, Write(pairs, true));
      HeadTail(pairs);
    }
  }

  // ---------------------------------------------------------------- injectivity

  predicate Distinct(labels: seq<string>) {
    forall i, j :: 0 <= i < j < |labels| ==> labels[i] != labels[j]
  }

  /** Two keys agree on the columns of a mask. */
  ghost predicate AgreeOn(v: seq<string>, w: seq<string>, mask: nat) {
    |v| == |w| && forall c: nat :: c < |v| && Bit(mask, c) ==> v[c] == w[c]
  }

  lemma {:induction false} SelectedHas(labels: seq<string>, values: seq<string>, mask: nat, col: nat, p: Pair)
    requires |values| == |labels|
    ensures p in Selected(labels, values, mask, col) <==>
              exists c: nat :: col <= c < |labels| && Bit(mask, c) && p == Pair(labels[c], values[c])
    decreases |labels| - col
  {
    hide Bit;
    if col < |labels| {
      SelectedHas(labels, values, mask, col + 1, p);
      var rest := Selected(labels, values, mask, col + 1);
      if Bit(mask, col) {
        assert Selected(labels, values, mask, col) == [Pair(labels[col], values[col])] + rest;
      }
    }
  }

  lemma {:induction false} SelectedAgrees(labels: seq<string>, v: seq<string>, w: seq<string>, mask: nat, col: nat)
    requires |v| == |w| == |labels| && AgreeOn(v, w, mask)
    ensures Selected(labels, v, mask, col) == Selected(labels, w, mask, col)
    decreases |labels| - col
  {
    hide Bit;
    if col < |labels| {
      SelectedAgrees(labels, v, w, mask, col + 1);
    }
  }

  /** A column selected once is selected wherever the selected pairs are the same. */
  lemma {:induction false} SelectedTells(labels: seq<string>, v: seq<string>, w: seq<string>, m: nat, n: nat, c: nat)
    requires |v| == |w| == |labels| && Distinct(labels) && c < |labels| && Bit(m, c)
    requires Selected(labels, v, m, 0) == Selected(labels, w, n, 0)
    ensures Bit(n, c) && v[c] == w[c]
  {
    var p := Pair(labels[c], v[c]);
    hide Bit, Selected;
    SelectedHas(labels, v, m, 0, p);
    SelectedHas(labels, w, n, 0, p);
    var d: nat :| d < |labels| && Bit(n, d) && p == Pair(labels[d], w[d]);
  }

  /** Main result: two subkeys of a schema are equal exactly if they fix the same columns to the
      same values, whatever characters labels and values consist of. */
  lemma {:induction false} SubkeysEqualIff(labels: seq<string>, v: seq<string>, m: nat, w: seq<string>, n: nat)
    requires |v| == |w| == |labels| && Distinct(labels) && m < Pow2(|labels|) && n < Pow2(|labels|)
    ensures Subkey(labels, v, m) == Subkey(labels, w, n) <==> m == n && AgreeOn(v, w, m)
  {
    var a, b := Selected(labels, v, m, 0), Selected(labels, w, n, 0);
    DecodeWritten(a);
    DecodeWritten(b);
    hide Bit, Selected, Decode, Write, Pow2, Distinct;
    if Subkey(labels, v, m) == Subkey(labels, w, n) {
      forall c: nat | c < |labels| ensures (Bit(m, c) <==> Bit(n, c)) && (Bit(m, c) ==> v[c] == w[c]) {
        if Bit(m, c) {
          SelectedTells(labels, v, w, m, n, c);
        }
        if Bit(n, c) {
          SelectedTells(labels, w, v, n, m, c);
        }
      }
      BitsDetermine(m, n, |labels|);
    }
    if m == n && AgreeOn(v, w, m) {
      SelectedAgrees(labels, v, w, m, 0);
    }
  }

  // ---------------------------------------------------------------- the schema

  datatype KeySchema = KeySchema(labels: seq<string>, escapedLabels: seq<string>) {
    ghost predicate Valid() {
      && 1 <= |labels| <= MAX_KEY_COLUMNS && Distinct(labels)
      && |escapedLabels| == |labels| && forall c :: 0 <= c < |labels| ==> escapedLabels[c] == Escape(labels[c])
    }
  }

  /** A schema over the given labels, if there are not too few, too many or equal ones. */
  method TryFrom(labels: seq<string>) returns (r: Result<KeySchema>)
    ensures r.Ok? <==> 1 <= |labels| <= 16 && forall i, j :: 0 <= i < j < |labels| ==> labels[i] != labels[j]
    ensures r.Ok? ==> r.value.Valid() && r.value.labels == labels
  {
    if labels == [] {
      return Err("Hydra schema must declare at least one key column");
    }
    if |labels| > MAX_KEY_COLUMNS {
      return Err("Hydra schema supports at most 16 key columns");
    }
    if !Distinct(labels) {
      return Err("Hydra schema contains duplicate column labels");
    }
    var escaped := [];
    var i := 0;
    while i < |labels|
      invariant i == |escaped| <= |labels| && forall c :: 0 <= c < i ==> escaped[c] == Escape(labels[c])
    {
      var e := PushEscaped("", labels[i]);
      escaped := escaped + [e];
      i := i + 1;
    }
    return Ok(KeySchema(labels, escaped));
  }

  lemma {:induction false} SelectedNext(labels: seq<string>, values: seq<string>, mask: nat, col: nat, first: bool)
    requires |values| == |labels| && col < |labels|
    ensures var rest := Selected(labels, values, mask, col + 1);
            Write(Selected(labels, values, mask, col), first) ==
              if Bit(mask, col) then
                (if first then [] else ";") + Escape(labels[col]) + ":" + Escape(values[col]) + Write(rest, false)
              else Write(rest, first)
  {
    hide Bit, Escape;
    var rest := Selected(labels, values, mask, col + 1);
    if Bit(mask, col) {
      var pairs := [Pair(labels[col], values[col])] + rest;
      assert Selected(labels, values, mask, col) == pairs;
      assert pairs[1..] == rest;
    }
  }

  lemma WriteNone(first: bool)
    ensures Write([], first) == []
  {
  }

  /** Writes the subkey of the columns of `mask`. */
  method EncodeSubkeyInto(schema: KeySchema, values: seq<string>, mask: nat) returns (buf: string)
    requires schema.Valid() && |values| == |schema.labels|
    ensures buf == Subkey(schema.labels, values, mask)
  {
    var labels := schema.labels;
    hide Selected, Write, Bit, Escape, Distinct;
    buf := "";
    var first := true;
    var col := 0;
    while col < |labels|
      invariant 0 <= col <= |labels|
      invariant buf + Write(Selected(labels, values, mask, col), first) == Subkey(labels, values, mask)
    {
      SelectedNext(labels, values, mask, col, first);
      ghost var before, rest := buf, Selected(labels, values, mask, col + 1);
      if Bit(mask, col) {
        if !first {
          buf := buf + [';'];
        }
        buf := buf + schema.escapedLabels[col];
        buf := buf + [':'];
        buf := PushEscaped(buf, values[col]);
        Regroup(before, if first then [] else ";", Escape(labels[col]), Escape(values[col]), Write(rest, false));
        first := false;
      }
      col := col + 1;
    }
    SelectedNone(labels, values, mask);
    WriteNone(first);
  }

  lemma SelectedNone(labels: seq<string>, values: seq<string>, mask: nat)
    requires |values| == |labels|
    ensures Selected(labels, values, mask, |labels|) == []
  {
  }

  lemma Regroup(a: string, sep: string, b: string, c: string, d: string)
    ensures a + (sep + b + ":" + c + d) == (a + sep + b + ":" + c) + d
    ensures sep == [] ==> a + sep == a
  {
  }

  // ---------------------------------------------------------------- encoded length

  /** Bytes of a character in UTF-8. */
  function Width(c: char): (w: nat)
    ensures 1 <= w <= 4 && (Structural(c) ==> w == 1)
  {
    if c as int < 0x80 then 1 else if c as int < 0x800 then 2 else if c as int < 0x1_0000 then 3 else 4
  }

  function Bytes(s: string): nat {
    if s == [] then 0 else Width(s[0]) + Bytes(s[1..])
  }

  function LabelBytes(escapedLabels: seq<string>): nat {
    if escapedLabels == [] then 0 else Bytes(escapedLabels[0]) + 2 + LabelBytes(escapedLabels[1..])
  }

  function ValueBytes(values: seq<string>): nat {
    if values == [] then 0 else 2 * Bytes(values[0]) + ValueBytes(values[1..])
  }

  /** The bytes set aside for a subkey over the given values. */
  function EncodedCapacity(schema: KeySchema, values: seq<string>): nat {
    LabelBytes(schema.escapedLabels) + ValueBytes(values)
  }

  lemma {:induction false} BytesAppend(s: string, t: string)
    ensures Bytes(s + t) == Bytes(s) + Bytes(t)
  {
    if s == [] {
      assert s + t == t;
    } else {
      BytesAppend(s[1..], t);
      assert (s + t)[1..] == s[1..] + t;
    }
  }

  lemma {:induction false} BytesOfChar(c: char, s: string)
    requires s == [c]
    ensures Bytes(s) == Width(c)
  {
    assert s[1..] == [];
  }

  lemma {:induction false} EscapeCharBytes(c: char)
    ensures Bytes(EscapeChar(c)) <= 2 * Width(c)
  {
    var s := EscapeChar(c);
    if Structural(c) {
      BytesOfChar(c, s[1..]);
      assert Structural(s[0]) && Bytes(s) == Width(s[0]) + Bytes(s[1..]);
    } else {
      BytesOfChar(c, s);
    }
  }

  lemma {:induction false} EscapeBytes(s: string)
    ensures Bytes(Escape(s)) <= 2 * Bytes(s)
  {
    if s != [] {
      hide EscapeChar, Width;
      EscapeBytes(s[1..]);
      EscapeCharBytes(s[0]);
      BytesAppend(EscapeChar(s[0]), Escape(s[1..]));
    }
  }

  /** The bytes of one written pair. */
  lemma {:induction false} PairBytes(sep: string, a: string, b: string, rest: string)
    requires sep == [] || sep == [';']
    ensures Bytes(sep + a + ":" + b + rest) <= 2 + Bytes(a) + Bytes(b) + Bytes(rest)
  {
    BytesAppend(sep + a + ":" + b, rest);
    BytesAppend(sep + a + ":", b);
    BytesAppend(sep + a, ":");
    BytesAppend(sep, a);
    BytesOfChar(':', ":");
    if sep != [] {
      BytesOfChar(';', sep);
    }
    hide Bytes;
  }

  lemma {:induction false} CapacityFrom(schema: KeySchema, values: seq<string>, mask: nat, col: nat, first: bool)
    requires schema.Valid() && |values| == |schema.labels| && col <= |values|
    ensures Bytes(Write(Selected(schema.labels, values, mask, col), first))
         <= LabelBytes(schema.escapedLabels[col..]) + ValueBytes(values[col..])
    decreases |values| - col
  {
    var labels := schema.labels;
    hide Selected, Write, Bytes, Bit, Escape, Distinct;
    if col == |values| {
      SelectedNone(labels, values, mask);
      WriteNone(first);
      NoBytes();
    } else {
      SelectedNext(labels, values, mask, col, first);
      CapacityFrom(schema, values, mask, col + 1, false);
      CapacityFrom(schema, values, mask, col + 1, first);
      PairBytes(if first then [] else ";", Escape(labels[col]), Escape(values[col]),
                Write(Selected(labels, values, mask, col + 1), false));
      EscapeBytes(values[col]);
      TotalsNext(schema.escapedLabels, values, col);
    }
  }

  lemma NoBytes()
    ensures Bytes([]) == 0
  {
  }

  lemma {:induction false} TotalsNext(escapedLabels: seq<string>, values: seq<string>, col: nat)
    requires col < |values| == |escapedLabels|
    ensures LabelBytes(escapedLabels[col..]) == Bytes(escapedLabels[col]) + 2 + LabelBytes(escapedLabels[col + 1..])
    ensures ValueBytes(values[col..]) == 2 * Bytes(values[col]) + ValueBytes(values[col + 1..])
  {
    hide Bytes;
    assert escapedLabels[col..][1..] == escapedLabels[col + 1..];
    assert values[col..][1..] == values[col + 1..];
  }

  /** No subkey is longer than the capacity set aside for it. */
  lemma {:induction false} SubkeyFits(schema: KeySchema, values: seq<string>, mask: nat)
    requires schema.Valid() && |values| == |schema.labels|
    ensures Bytes(Subkey(schema.labels, values, mask)) <= EncodedCapacity(schema, values)
  {
    hide Selected, Write, Bytes, Bit, Escape;
    CapacityFrom(schema, values, mask, 0, true);
    assert schema.escapedLabels[0..] == schema.escapedLabels && values[0..] == values;
  }

  // ---------------------------------------------------------------- queries

  lemma {:induction false} SetBit(mask: nat, n: nat, i: nat)
    requires mask < Pow2(n)
    ensures Bit(mask + Pow2(n), i) <==> i == n || Bit(mask, i)
    ensures i >= n ==> !Bit(mask, i)
    decreases n
  {
    if n == 0 {
      NoBits(mask, i);
      if i > 0 {
        NoBits((mask + 1) / 2, i - 1);
      }
    } else if i > 0 {
      assert (mask + Pow2(n)) / 2 == mask / 2 + Pow2(n - 1);
      SetBit(mask / 2, n - 1, i - 1);
    }
  }

  lemma {:induction false} NoBits(mask: nat, i: nat)
    requires mask == 0
    ensures !Bit(mask, i)
  {
    if i > 0 {
      NoBits(mask / 2, i - 1);
    }
  }

  /** `mask` marks the constrained ones of the first `n` columns, and `values` holds their values. */
  ghost predicate Resolves(key: seq<Option<string>>, n: nat, mask: nat, values: seq<string>) {
    && n <= |key| && |values| == |key| && mask < Pow2(n)
    && (forall c: nat :: Bit(mask, c) <==> c < n && key[c].Some?)
    && (forall c :: 0 <= c < n && key[c].Some? ==> values[c] == key[c].value)
  }

  /** The mask and the values of a query, or why it has none. */
  method ResolveQuery(schema: KeySchema, key: seq<Option<string>>) returns (r: Result<(nat, seq<string>)>)
    requires schema.Valid()
    ensures r.Ok? <==> |key| == |schema.labels| && exists c :: 0 <= c < |key| && key[c].Some?
    ensures r.Ok? ==> r.value.0 >= 1 && |r.value.1| == |key| && Resolves(key, |key|, r.value.0, r.value.1)
  {
    if |key| != |schema.labels| {
      return Err("Hydra key arity mismatch");
    }
    var mask: nat, values: seq<string>, col: nat := 0, seq(|key|, i => ""), 0;
    ResolvesNothing(key, values);
    hide Bit, Pow2;
    while col < |key|
      invariant 0 <= col <= |key| && Resolves(key, col, mask, values)
      invariant mask == 0 <==> forall c :: 0 <= c < col ==> key[c].None?
    {
      ResolvesNext(key, col, mask, values);
      if key[col].Some? {
        mask := mask + Pow2(col);
        values := values[col := key[col].value];
      }
      col := col + 1;
    }
    if mask == 0 {
      return Err("Hydra query must constrain at least one column");
    }
    return Ok((mask, values));
  }

  lemma {:induction false} ResolvesNothing(key: seq<Option<string>>, values: seq<string>)
    requires |values| == |key|
    ensures Resolves(key, 0, 0, values)
  {
    forall c: nat ensures !Bit(0, c) {
      NoBits(0, c);
    }
  }

  lemma {:induction false} ResolvesNext(key: seq<Option<string>>, n: nat, mask: nat, values: seq<string>)
    requires Resolves(key, n, mask, values) && n < |key|
    ensures key[n].None? ==> Resolves(key, n + 1, mask, values)
    ensures key[n].Some? ==> Resolves(key, n + 1, mask + Pow2(n), values[n := key[n].value])
  {
    assert Pow2(n + 1) == 2 * Pow2(n);
    var next := mask + Pow2(n);
    forall c: nat ensures Bit(next, c) <==> c == n || Bit(mask, c) {
      SetBit(mask, n, c);
    }
    hide Bit, Pow2;
    if key[n].None? {
      forall c: nat ensures Bit(mask, c) <==> c < n + 1 && key[c].Some? {
      }
    } else {
      forall c: nat ensures Bit(next, c) <==> c < n + 1 && key[c].Some? {
        assert c == n || (Bit(mask, c) <==> c < n && key[c].Some?);
      }
    }
  }
}

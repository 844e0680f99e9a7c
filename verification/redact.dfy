/** The redacting field walker of the FIX log, against split, mask and join. */
module Redaction {

  type byte = b: int | 0 <= b < 256

  const SOH: byte := 1
  const PIPE: byte := 124
  const EQUALS: byte := 61
  const ZERO: byte := 48
  const NINE: byte := 57
  const MASK: seq<byte> := [42, 42, 42, 42]

  /** RawData and Password. */
  const SECRET_TAGS: seq<int> := [96, 554]

  /** The first position of `c`, or -1. */
  function IndexByte(s: seq<byte>, c: byte): (i: int)
    ensures -1 <= i < |s|
    ensures i >= 0 ==> s[i] == c && c !in s[..i]
    ensures i < 0 ==> c !in s
  {
    if s == [] then -1
    else if s[0] == c then 0
    else
      var i := IndexByte(s[1..], c);
      assert i >= 0 ==> s[..i + 1] == [s[0]] + s[1..][..i];
      if i < 0 then -1 else i + 1
  }

  /** The fields of `s`; a trailing separator ends in an empty field. */
  function Split(s: seq<byte>, sep: byte): (fs: seq<seq<byte>>)
    ensures fs != []
    decreases |s|
  {
    var i := IndexByte(s, sep);
    if i < 0 then [s] else [s[..i]] + Split(s[i + 1..], sep)
  }

  lemma {:induction false} FieldsAreClean(s: seq<byte>, sep: byte, k: nat)
    requires k < |Split(s, sep)|
    ensures sep !in Split(s, sep)[k]
    decreases |s|
  {
    hide IndexByte;
    var i := IndexByte(s, sep);
    if i >= 0 && k > 0 {
      FieldsAreClean(s[i + 1..], sep, k - 1);
    }
  }

  function Join(fs: seq<seq<byte>>, sep: byte): seq<byte>
    requires fs != []
  {
    if |fs| == 1 then fs[0] else fs[0] + [sep] + Join(fs[1..], sep)
  }

  predicate AllDigits(t: seq<byte>) {
    forall i :: 0 <= i < |t| ==> ZERO <= t[i] <= NINE
  }

  function Value(t: seq<byte>): int
    requires AllDigits(t)
  {
    if t == [] then 0 else 10 * Value(t[..|t| - 1]) + (t[|t| - 1] - ZERO)
  }

  /** Go's int: 64 bits, wrapping. */
  function Wrap(x: int): int {
    (x + 0x8000_0000_0000_0000) % 0x1_0000_0000_0000_0000 - 0x8000_0000_0000_0000
  }

  /** A tag is secret when it is all digits and reads as a secret tag number, wrapping included. */
  predicate SecretTag(t: seq<byte>) {
    t != [] && AllDigits(t) && Wrap(Value(t)) in SECRET_TAGS
  }

  /** `f` is tag, '=' and a value to hide. */
  predicate SecretField(f: seq<byte>) {
    var eq := IndexByte(f, EQUALS);
    eq > 0 && SecretTag(f[..eq])
  }

  function MaskField(f: seq<byte>): seq<byte> {
    if SecretField(f) then f[..IndexByte(f, EQUALS) + 1] + MASK else f
  }

  function MaskAll(fs: seq<seq<byte>>): (ms: seq<seq<byte>>)
    ensures |ms| == |fs| && forall i :: 0 <= i < |fs| ==> ms[i] == MaskField(fs[i])
  {
    if fs == [] then [] else [MaskField(fs[0])] + MaskAll(fs[1..])
  }

  /** What redacting means: split on SOH, mask the secret fields, join with pipes. */
  function Redacted(raw: seq<byte>): seq<byte> {
    Join(MaskAll(Split(raw, SOH)), PIPE)
  }

  lemma RedactedStep(s: seq<byte>)
    ensures var i := IndexByte(s, SOH);
      Redacted(s) == if i < 0 then MaskField(s) else MaskField(s[..i]) + [PIPE] + Redacted(s[i + 1..])
  {
    hide MaskField;
    var i := IndexByte(s, SOH);
    if i >= 0 {
      var rest := Split(s[i + 1..], SOH);
      assert ([s[..i]] + rest)[1..] == rest;
    }
  }

  /** Wrapping at every digit is wrapping once at the end. */
  lemma WrapStep(n: int, d: int)
    ensures Wrap(Wrap(n) * 10 + d) == Wrap(n * 10 + d)
  {
    var k := (n + 0x8000_0000_0000_0000) / 0x1_0000_0000_0000_0000;
    assert Wrap(n) == n - k * 0x1_0000_0000_0000_0000;
    WrapShift(n * 10 + d, -10 * k);
  }

  lemma WrapShift(x: int, k: int)
    ensures Wrap(x + k * 0x1_0000_0000_0000_0000) == Wrap(x)
  {
  }

  method AtoiStrict(b: seq<byte>) returns (n: int, ok: bool)
    ensures ok <==> b != [] && AllDigits(b)
    ensures ok ==> n == Wrap(Value(b))
  {
    if |b| == 0 {
      return 0, false;
    }
    n := 0;
    for i := 0 to |b|
      invariant AllDigits(b[..i]) && n == Wrap(Value(b[..i]))
    {
      var c := b[i];
      if c < ZERO || c > NINE {
        return 0, false;
      }
      assert b[..i + 1] == b[..i] + [c];
      assert b[..i + 1][..i] == b[..i];
      WrapStep(Value(b[..i]), c - ZERO);
      n := Wrap(n * 10 + (c - ZERO));
    }
    assert b[..|b|] == b;
    ok := true;
  }

  method IsSecret(tag: seq<byte>) returns (secret: bool)
    ensures secret <==> SecretTag(tag)
  {
    var n, ok := AtoiStrict(tag);
    if !ok {
      return false;
    }
    for i := 0 to |SECRET_TAGS|
      invariant n !in SECRET_TAGS[..i]
    {
      if SECRET_TAGS[i] == n {
        return true;
      }
    }
    secret := false;
  }

  /** What the walker appends for one field. */
  method Shown(field: seq<byte>) returns (out: seq<byte>)
    ensures out == MaskField(field)
  {
    hide SecretTag;
    var eq := IndexByte(field, EQUALS);
    var secret := false;
    if eq > 0 {
      secret := IsSecret(field[..eq]);
    }
    if secret {
      out := field[..eq + 1];
      out := out + MASK;
    } else {
      out := field;
    }
  }

  /** The walker: one field at a time, never looking past its delimiter. */
  method Redact(raw: seq<byte>) returns (out: seq<byte>)
    ensures out == Redacted(raw)
  {
    hide MaskField, Redacted, IndexByte, AllDigits;
    out := [];
    var i := 0;
    assert raw[0..] == raw && out + Redacted(raw) == Redacted(raw);
    while i < |raw|
      invariant 0 <= i <= |raw| + 1
      invariant out + (if i <= |raw| then Redacted(raw[i..]) else []) == Redacted(raw)
    {
      ghost var before := out;
      RedactedStep(raw[i..]);
      var end := IndexByte(raw[i..], SOH);
      if end < 0 {
        end := |raw| - i;
      }
      assert raw[i..i + end] == raw[i..][..end];
      var field := Shown(raw[i..i + end]);
      out := out + field;
      if i + end < |raw| {
        out := out + [PIPE];
        assert raw[i..][end + 1..] == raw[i + end + 1..];
        WalkedOne(before, field, Redacted(raw[i + end + 1..]));
      } else {
        assert raw[i..][..end] == raw[i..];
      }
      i := i + end + 1;
    }
    EmptyIsEmpty();
    assert i == |raw| ==> raw[i..] == [];
  }

  lemma WalkedOne(before: seq<byte>, field: seq<byte>, rest: seq<byte>)
    ensures before + field + [PIPE] + rest == before + (field + [PIPE] + rest)
  {
  }

  lemma EmptyIsEmpty()
    ensures Redacted([]) == []
  {
  }

  /** Splitting loses nothing. */
  lemma {:induction false} JoinAfterSplit(s: seq<byte>, sep: byte)
    ensures Join(Split(s, sep), sep) == s
    decreases |s|
  {
    var i := IndexByte(s, sep);
    if i >= 0 {
      JoinAfterSplit(s[i + 1..], sep);
      var rest := Split(s[i + 1..], sep);
      assert ([s[..i]] + rest)[1..] == rest;
      assert s == s[..i] + [sep] + s[i + 1..];
    }
  }

  lemma {:induction false} FirstIndex(s: seq<byte>, c: byte, k: nat)
    requires k < |s| && s[k] == c && c !in s[..k]
    ensures IndexByte(s, c) == k
  {
    if k > 0 {
      assert s[..k][0] == s[0];
      assert s[1..][..k - 1] == s[..k][1..];
      FirstIndex(s[1..], c, k - 1);
    }
  }

  /** Fields without the separator come back from their join. */
  lemma {:induction false} SplitAfterJoin(fs: seq<seq<byte>>, sep: byte)
    requires fs != [] && forall i :: 0 <= i < |fs| ==> sep !in fs[i]
    ensures Split(Join(fs, sep), sep) == fs
  {
    if |fs| > 1 {
      var s, k := Join(fs, sep), |fs[0]|;
      SplitAfterJoin(fs[1..], sep);
      assert s[..k] == fs[0] && s[k + 1..] == Join(fs[1..], sep);
      FirstIndex(s, sep, k);
    }
  }

  /** No SOH is left in the output. */
  lemma {:induction false} NoSohSurvives(raw: seq<byte>)
    ensures SOH !in Redacted(raw)
    decreases |raw|
  {
    hide MaskField, Redacted;
    RedactedStep(raw);
    var i := IndexByte(raw, SOH);
    if i >= 0 {
      MaskingAddsNone(raw[..i]);
      NoSohSurvives(raw[i + 1..]);
    } else {
      MaskingAddsNone(raw);
    }
  }

  lemma MaskingAddsNone(f: seq<byte>)
    requires SOH !in f
    ensures SOH !in MaskField(f)
  {
    hide SecretTag;
    var kept := f[..IndexByte(f, EQUALS) + 1];
    assert forall i :: 0 <= i < |kept| ==> kept[i] == f[i];
  }

  /** Equal, or the same secret tag with any two values. */
  predicate EqualButSecrets(f: seq<byte>, g: seq<byte>) {
    var ef, eg := IndexByte(f, EQUALS), IndexByte(g, EQUALS);
    f == g || (SecretField(f) && SecretField(g) && f[..ef] == g[..eg])
  }

  /** The output tells nothing about secret values: inputs that differ only in them look alike. */
  lemma SecretsDoNotShow(r: seq<byte>, s: seq<byte>)
    requires var fs, gs := Split(r, SOH), Split(s, SOH);
      |fs| == |gs| && forall i :: 0 <= i < |fs| ==> EqualButSecrets(fs[i], gs[i])
    ensures Redacted(r) == Redacted(s)
  {
    var fs, gs := Split(r, SOH), Split(s, SOH);
    forall i | 0 <= i < |fs| ensures MaskField(fs[i]) == MaskField(gs[i]) {
      MaskHidesValue(fs[i], gs[i]);
    }
    assert MaskAll(fs) == MaskAll(gs);
  }

  lemma MaskHidesValue(f: seq<byte>, g: seq<byte>)
    requires EqualButSecrets(f, g)
    ensures MaskField(f) == MaskField(g)
  {
    hide SecretTag;
    if f != g {
      var ef, eg := IndexByte(f, EQUALS), IndexByte(g, EQUALS);
      assert |f[..ef]| == |g[..eg]|;
      assert f[..ef + 1] == f[..ef] + [EQUALS] && g[..eg + 1] == g[..eg] + [EQUALS];
    }
  }

  /** A field is changed only if it is secret, and then by exactly its value. */
  function Growth(fs: seq<seq<byte>>): int {
    if fs == [] then 0 else
      var f := fs[0];
      Growth(fs[1..]) + if SecretField(f) then |MASK| - (|f| - IndexByte(f, EQUALS) - 1) else 0
  }

  lemma {:induction false} JoinedLength(fs: seq<seq<byte>>)
    requires fs != []
    ensures |Join(MaskAll(fs), PIPE)| == |Join(fs, SOH)| + Growth(fs)
  {
    hide SecretField;
    if |fs| > 1 {
      JoinedLength(fs[1..]);
      assert MaskAll(fs)[1..] == MaskAll(fs[1..]);
    } else {
      assert Growth(fs[1..]) == 0;
    }
  }

  /** The length of the output follows from the lengths of the masked values. */
  lemma LengthFollowsFromSecrets(raw: seq<byte>)
    ensures |Redacted(raw)| == |raw| + Growth(Split(raw, SOH))
  {
    JoinedLength(Split(raw, SOH));
    JoinAfterSplit(raw, SOH);
  }

  /** The displayed line splits back into the fields, the non-secret ones byte for byte, exactly
      when no displayed field holds a pipe of its own. */
  lemma FieldsReadBackExactlyWhen(raw: seq<byte>)
    ensures var fs := Split(raw, SOH);
      && (forall i :: 0 <= i < |fs| && !SecretField(fs[i]) ==> MaskAll(fs)[i] == fs[i])
      && (Split(Redacted(raw), PIPE) == MaskAll(fs)
          <==> forall i :: 0 <= i < |fs| ==> PIPE !in MaskAll(fs)[i])
  {
    var fs := Split(raw, SOH);
    forall i | 0 <= i < |Split(Redacted(raw), PIPE)| ensures PIPE !in Split(Redacted(raw), PIPE)[i] {
      FieldsAreClean(Redacted(raw), PIPE, i);
    }
    if forall i :: 0 <= i < |fs| ==> PIPE !in MaskAll(fs)[i] {
      SplitAfterJoin(MaskAll(fs), PIPE);
    }
  }

  /** A field is hidden exactly when nothing but digits stands before its first '=', and they read as 96 or
      554; then four stars stand for the value. Every other field is shown as it is. */
  lemma HiddenExactlyWhen(f: seq<byte>)
    ensures var eq := IndexByte(f, 61);
      MaskField(f) == if eq > 0 && (forall i :: 0 <= i < eq ==> 48 <= f[i] <= 57)
                         && (Wrap(Value(f[..eq])) == 96 || Wrap(Value(f[..eq])) == 554)
                      then f[..eq + 1] + [42, 42, 42, 42] else f
  {
    hide IndexByte, Value, Wrap;
  }

  /** A password field hides its value, whatever that is, up to the SOH that ends it; a pipe stands for the SOH. */
  lemma PasswordIsHidden(tag: seq<byte>, value: seq<byte>, rest: seq<byte>)
    requires tag == [57, 54] || tag == [53, 53, 52]
    requires 1 !in value
    ensures Redacted(tag + [61] + value + [1] + rest) == tag + [61] + [42, 42, 42, 42] + [124] + Redacted(rest)
  {
    hide Redacted, MaskField, IndexByte;
    var f := tag + [61] + value;
    var raw := f + [1] + rest;
    FirstIndex(raw, 1, |f|);
    RedactedStep(raw);
    assert raw[..|f|] == f && raw[|f| + 1..] == rest;
    ValueIsMasked(tag, value);
  }

  lemma ValueIsMasked(tag: seq<byte>, value: seq<byte>)
    requires tag == [57, 54] || tag == [53, 53, 52]
    ensures MaskField(tag + [61] + value) == tag + [61] + [42, 42, 42, 42]
  {
    hide SecretTag, IndexByte;
    var f := tag + [61] + value;
    FirstIndex(f, 61, |tag|);
    TagsRead();
    assert f[..|tag|] == tag && f[..|tag| + 1] == tag + [61];
  }

  lemma TagsRead()
    ensures SecretTag([57, 54]) && SecretTag([53, 53, 52])
  {
    assert [57, 54][..1] == [57] && [57][..0] == [];
    assert [53, 53, 52][..2] == [53, 53] && [53, 53][..1] == [53] && [53][..0] == [];
  }

  /** The tag number wraps: 2^64 + 96 is taken for RawData, and masked. */
  lemma WrappedTagIsSecret(t: seq<byte>, n: nat)
    requires t != [] && AllDigits(t)
    requires Value(t) == n * 0x1_0000_0000_0000_0000 + 96 || Value(t) == n * 0x1_0000_0000_0000_0000 + 554
    ensures SecretTag(t)
  {
    WrapShift(96, n);
    WrapShift(554, n);
  }
}

/** The field rules spelled out code point by code point, apart from the service's validators, and the
    proof that the validators accept exactly these texts. */
module Fields {
  import opened Wrappers
  import opened Model
  import opened Service

  function CodePoint(c: char): int {
    c as int
  }

  predicate LowerOrDigit(n: int) {
    0x61 <= n <= 0x7A || 0x30 <= n <= 0x39
  }

  predicate LetterOrDigit(n: int) {
    LowerOrDigit(n) || 0x41 <= n <= 0x5A
  }

  // The hyphen is 0x2D, the full stop 0x2E, the slash 0x2F, the colon 0x3A, the low line 0x5F.

  predicate IdentifierText(value: string, maximum: nat) {
    && 1 <= |value| <= maximum
    && forall k :: 0 <= k < |value| ==>
         LetterOrDigit(CodePoint(value[k])) || CodePoint(value[k]) in {0x2D, 0x2E, 0x3A, 0x5F}
  }

  predicate ReferenceText(value: string) {
    && 1 <= |value| <= 512
    && forall k :: 0 <= k < |value| ==>
         LetterOrDigit(CodePoint(value[k])) || CodePoint(value[k]) in {0x2D, 0x2E, 0x2F, 0x3A, 0x5F}
  }

  predicate KindText(value: string) {
    && 1 <= |value| <= 128
    && LowerOrDigit(CodePoint(value[0])) && LowerOrDigit(CodePoint(value[|value| - 1]))
    && forall k :: 0 <= k < |value| ==>
         LowerOrDigit(CodePoint(value[k])) || CodePoint(value[k]) in {0x2D, 0x2E, 0x5F}
  }

  predicate DigestText(value: string) {
    && |value| == 64
    && forall k :: 0 <= k < |value| ==> 0x30 <= CodePoint(value[k]) <= 0x39 || 0x61 <= CodePoint(value[k]) <= 0x66
  }

  /** The length in UTF-8, counted from the end. */
  function EncodedLength(value: string): nat {
    if |value| == 0 then 0
    else
      var n := CodePoint(value[|value| - 1]);
      EncodedLength(value[..|value| - 1])
      + if n <= 0x7F then 1 else if n <= 0x7FF then 2 else if n <= 0xFFFF then 3 else 4
  }

  predicate Blank(n: int) {
    || 0x9 <= n <= 0xD || n == 0x20 || n == 0x85 || n == 0xA0 || n == 0x1680 || 0x2000 <= n <= 0x200A
    || n == 0x2028 || n == 0x2029 || n == 0x202F || n == 0x205F || n == 0x3000
  }

  predicate ReasonText(value: string) {
    && !(forall k :: 0 <= k < |value| ==> Blank(CodePoint(value[k])))
    && EncodedLength(value) <= 1000
    && forall k :: 0 <= k < |value| ==> !(0 <= CodePoint(value[k]) <= 0x1F || 0x7F <= CodePoint(value[k]) <= 0x9F)
  }

  /** The rules of a request. */
  predicate RequestFields(i: RequestIntent) {
    && IdentifierText(i.requestId, 128) && IdentifierText(i.idempotencyKey, 256)
    && ReferenceText(i.requestedBy) && ReferenceText(i.subjectId)
    && KindText(i.approvalKind) && KindText(i.subjectKind)
    && (match i.intentDigest
        case None => i.subjectKind != "management-operation"
        case Some(digest) => DigestText(digest))
    && i.expiresAt > i.requestedAt
  }

  lemma CharactersAgree(c: char)
    ensures Alphanumeric(c) <==> LetterOrDigit(CodePoint(c))
    ensures KindEdge(c) <==> LowerOrDigit(CodePoint(c))
    ensures Whitespace(c) <==> Blank(CodePoint(c))
    ensures Control(c) <==> 0 <= CodePoint(c) <= 0x1F || 0x7F <= CodePoint(c) <= 0x9F
    ensures c in {'.', '_', '-'} <==> CodePoint(c) in {0x2D, 0x2E, 0x5F}
    ensures c in {'.', '_', '-', ':'} <==> CodePoint(c) in {0x2D, 0x2E, 0x3A, 0x5F}
    ensures c in {'.', '_', '-', ':', '/'} <==> CodePoint(c) in {0x2D, 0x2E, 0x2F, 0x3A, 0x5F}
  {
  }

  lemma IdentifiersAgree(value: string, maximum: nat)
    ensures ValidIdentifier(value, maximum) <==> IdentifierText(value, maximum)
  {
    hide Alphanumeric, LetterOrDigit, CodePoint;
    forall k | 0 <= k < |value|
      ensures Alphanumeric(value[k]) || value[k] in {'.', '_', '-', ':'} <==>
              LetterOrDigit(CodePoint(value[k])) || CodePoint(value[k]) in {0x2D, 0x2E, 0x3A, 0x5F}
    {
      CharactersAgree(value[k]);
    }
  }

  lemma ReferencesAgree(value: string)
    ensures ValidReference(value) <==> ReferenceText(value)
  {
    hide Alphanumeric, LetterOrDigit, CodePoint;
    forall k | 0 <= k < |value|
      ensures Alphanumeric(value[k]) || value[k] in {'.', '_', '-', ':', '/'} <==>
              LetterOrDigit(CodePoint(value[k])) || CodePoint(value[k]) in {0x2D, 0x2E, 0x2F, 0x3A, 0x5F}
    {
      CharactersAgree(value[k]);
    }
  }

  lemma KindsAgree(value: string)
    ensures ValidKind(value) <==> KindText(value)
  {
    hide KindEdge, LowerOrDigit, CodePoint;
    forall k | 0 <= k < |value|
      ensures KindEdge(value[k]) <==> LowerOrDigit(CodePoint(value[k]))
      ensures value[k] in {'.', '_', '-'} <==> CodePoint(value[k]) in {0x2D, 0x2E, 0x5F}
    {
      CharactersAgree(value[k]);
    }
  }

  lemma DigestsAgree(value: string)
    ensures ValidDigest(value) <==> DigestText(value)
  {
  }

  lemma {:induction false} LengthIsAdditive(a: string, b: string)
    ensures Utf8Length(a + b) == Utf8Length(a) + Utf8Length(b)
  {
    if a == "" {
      assert a + b == b;
    } else {
      LengthIsAdditive(a[1..], b);
      assert (a + b)[1..] == a[1..] + b;
    }
  }

  lemma {:induction false} LengthsAgree(value: string)
    ensures Utf8Length(value) == EncodedLength(value)
  {
    if |value| == 0 {
    } else {
      var n := |value| - 1;
      LengthsAgree(value[..n]);
      LengthIsAdditive(value[..n], [value[n]]);
      assert value == value[..n] + [value[n]];
      assert [value[n]][1..] == "";
    }
  }

  lemma ReasonsAgree(reason: Option<string>)
    ensures ValidReason(reason) <==> reason.None? || ReasonText(reason.value)
  {
    hide Whitespace, Control, Blank, CodePoint, Utf8Length, EncodedLength;
    if reason.Some? {
      var value := reason.value;
      LengthsAgree(value);
      forall k | 0 <= k < |value|
        ensures Whitespace(value[k]) <==> Blank(CodePoint(value[k]))
        ensures Control(value[k]) <==> 0 <= CodePoint(value[k]) <= 0x1F || 0x7F <= CodePoint(value[k]) <= 0x9F
      {
        CharactersAgree(value[k]);
      }
    }
  }

  /** The service admits exactly the requests that follow the rules. */
  lemma RequestsAgree(i: RequestIntent)
    ensures ValidRequestFields(i) <==> RequestFields(i)
  {
    hide ValidIdentifier, ValidReference, ValidKind, ValidDigest, IdentifierText, ReferenceText, KindText, DigestText;
    IdentifiersAgree(i.requestId, 128);
    IdentifiersAgree(i.idempotencyKey, 256);
    ReferencesAgree(i.requestedBy);
    ReferencesAgree(i.subjectId);
    KindsAgree(i.approvalKind);
    KindsAgree(i.subjectKind);
    if i.intentDigest.Some? {
      DigestsAgree(i.intentDigest.value);
    }
  }
}

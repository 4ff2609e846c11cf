/** The three request bodies `AWS` sends: `getGiftCardPayload`,
    `getCancelGiftCardPayload` and `getAvailableFundsPayload`, each a PHP
    array passed through `json_encode` with `?: ''` as the fallback. The
    gift-card amount is a PHP float; it is kept as the number text the
    encoder writes for it. */
module Payloads {
  import opened Base
  import opened Bytes
  import opened JsonValue
  import opened JsonEncode
  import opened JsonParser
  import opened JsonRoundTrip
  import opened Php
  import Config
  import Signer

  /** `$creation_id ?: uniqid($partner . '_')`: a truthy id given by the
      caller, else the partner, an underscore and the characters `uniqid`
      adds (`unique`). */
  function CreationRequestId(partner: string, creationId: Option<string>, unique: string): (id: string)
    ensures creationId.Some? && Truthy(creationId.value) ==> id == creationId.value
    ensures !(creationId.Some? && Truthy(creationId.value)) ==>
      partner + "_" <= id && id[|partner| + 1..] == unique
  {
    if creationId.Some? && Truthy(creationId.value) then creationId.value
    else partner + "_" + unique
  }

  function GiftCardJson(cfg: Config.Config, amount: NumberText, id: string): Json
  {
    JObject([Member("creationRequestId", JString(id)),
             Member("partnerId", JString(cfg.partner)),
             Member("value", JObject([Member("currencyCode", JString(cfg.currency)),
                                      Member("amount", JNumber(amount))]))])
  }

  /** `getGiftCardPayload`. */
  function GiftCardPayload(cfg: Config.Config, amount: NumberText, creationId: Option<string>, unique: string): string
  {
    EncodeOrEmpty(GiftCardJson(cfg, amount, CreationRequestId(cfg.partner, creationId, unique)))
  }

  function CancelJson(cfg: Config.Config, creationRequestId: string, gcId: string): Json
  {
    JObject([Member("creationRequestId", JString(creationRequestId)),
             Member("partnerId", JString(cfg.partner)),
             Member("gcId", JString(gcId))])
  }

  /** `getCancelGiftCardPayload`. */
  function CancelPayload(cfg: Config.Config, creationRequestId: string, gcId: string): string
  {
    EncodeOrEmpty(CancelJson(cfg, creationRequestId, gcId))
  }

  function FundsJson(cfg: Config.Config): Json
  {
    JObject([Member("partnerId", JString(cfg.partner))])
  }

  /** `getAvailableFundsPayload`. */
  function FundsPayload(cfg: Config.Config): string
  {
    EncodeOrEmpty(FundsJson(cfg))
  }

  /** The gift-card object is well formed, two levels deep. */
  lemma GiftCardJsonWellFormed(cfg: Config.Config, amount: NumberText, id: string)
    ensures var v := GiftCardJson(cfg, amount, id);
      WellFormed(v) && Depth(v) == 2 && DistinctKeys(v.members) && DistinctKeys(v.members[2].value.members)
  {
    var v := GiftCardJson(cfg, amount, id);
    var inner := v.members[2].value;
    MembersBounded(inner.members, 0);
    assert DistinctKeys(inner.members) by {
      assert inner.members[0].key[0] == 'c' && inner.members[1].key[0] == 'a';
    }
    assert WellFormed(inner) && Depth(inner) == 1;
    MembersBounded(v.members, 1);
    assert DistinctKeys(v.members) by {
      assert v.members[0].key[0] == 'c' && v.members[1].key[0] == 'p' && v.members[2].key[0] == 'v';
    }
  }

  /** The cancel and funds objects are well formed and flat. */
  lemma FlatJsonWellFormed(cfg: Config.Config, creationRequestId: string, gcId: string)
    ensures var v := CancelJson(cfg, creationRequestId, gcId);
      WellFormed(v) && Depth(v) == 1 && DistinctKeys(v.members)
    ensures WellFormed(FundsJson(cfg)) && Depth(FundsJson(cfg)) == 1
  {
    var v := CancelJson(cfg, creationRequestId, gcId);
    MembersBounded(v.members, 0);
    assert DistinctKeys(v.members) by {
      assert v.members[0].key[0] == 'c' && v.members[1].key[0] == 'p' && v.members[2].key[0] == 'g';
    }
    MembersBounded(FundsJson(cfg).members, 0);
  }

  /** The keys of the gift-card object, and of its `value`, in order. */
  lemma GiftCardKeys(cfg: Config.Config, amount: NumberText, id: string)
    ensures var v := GiftCardJson(cfg, amount, id);
      Keys(v.members) == ["creationRequestId", "partnerId", "value"]
      && Keys(v.members[2].value.members) == ["currencyCode", "amount"]
  {
  }

  /** Each key of the gift-card object reads back the value it was built from. */
  lemma GiftCardFields(cfg: Config.Config, amount: NumberText, id: string)
    ensures var v := GiftCardJson(cfg, amount, id);
      Get(v, "creationRequestId") == Some(JString(id))
      && Get(v, "partnerId") == Some(JString(cfg.partner))
      && Get(v, "value") == Some(v.members[2].value)
      && Get(v.members[2].value, "currencyCode") == Some(JString(cfg.currency))
      && Get(v.members[2].value, "amount") == Some(JNumber(amount))
  {
    var v := GiftCardJson(cfg, amount, id);
    GiftCardJsonWellFormed(cfg, amount, id);
    FindDistinct(v.members, 0);
    FindDistinct(v.members, 1);
    FindDistinct(v.members, 2);
    FindDistinct(v.members[2].value.members, 0);
    FindDistinct(v.members[2].value.members, 1);
  }

  /** The gift-card body decodes to the object it was written from. */
  lemma GiftCardPayloadReads(cfg: Config.Config, amount: NumberText, creationId: Option<string>, unique: string)
    ensures Decode(GiftCardPayload(cfg, amount, creationId, unique))
         == Ok(GiftCardJson(cfg, amount, CreationRequestId(cfg.partner, creationId, unique)))
  {
    var v := GiftCardJson(cfg, amount, CreationRequestId(cfg.partner, creationId, unique));
    GiftCardJsonWellFormed(cfg, amount, CreationRequestId(cfg.partner, creationId, unique));
    EncodeOrEmptyReads(v);
  }

  /** The members of the cancel object: three keys in order with the values given. */
  lemma CancelFields(cfg: Config.Config, creationRequestId: string, gcId: string)
    ensures var v := CancelJson(cfg, creationRequestId, gcId);
      Keys(v.members) == ["creationRequestId", "partnerId", "gcId"]
    ensures var v := CancelJson(cfg, creationRequestId, gcId);
      Get(v, "creationRequestId") == Some(JString(creationRequestId))
      && Get(v, "partnerId") == Some(JString(cfg.partner))
      && Get(v, "gcId") == Some(JString(gcId))
  {
    var v := CancelJson(cfg, creationRequestId, gcId);
    FlatJsonWellFormed(cfg, creationRequestId, gcId);
    FindDistinct(v.members, 0);
    FindDistinct(v.members, 1);
    FindDistinct(v.members, 2);
  }

  /** The cancel body decodes to the object it was written from. */
  lemma CancelPayloadReads(cfg: Config.Config, creationRequestId: string, gcId: string)
    ensures Decode(CancelPayload(cfg, creationRequestId, gcId)) == Ok(CancelJson(cfg, creationRequestId, gcId))
  {
    FlatJsonWellFormed(cfg, creationRequestId, gcId);
    EncodeOrEmptyReads(CancelJson(cfg, creationRequestId, gcId));
  }

  /** The funds body decodes to the partner id alone. */
  lemma FundsPayloadReads(cfg: Config.Config)
    ensures var d := Decode(FundsPayload(cfg));
      d == Ok(FundsJson(cfg))
      && Keys(d.value.members) == ["partnerId"]
      && Get(d.value, "partnerId") == Some(JString(cfg.partner))
  {
    FlatJsonWellFormed(cfg, "", "");
    EncodeOrEmptyReads(FundsJson(cfg));
    FindDistinct(FundsJson(cfg).members, 0);
  }

  /** The encoder writes ASCII only, so the `Content-Length` header, a count
      of bytes, is the payload's character count. */
  lemma ContentLengthOfPayload(v: Json, authorization: string, ts: string, target: string)
    requires IsArray(v) && WellFormed(v) && Depth(v) <= MaxDepth
    ensures var p := EncodeOrEmpty(v);
      Signer.BuildHeaders(p, authorization, ts, target)[1] == "Content-Length: " + NatToString(|p|)
  {
    EncodeOrEmptyReads(v);
    Utf8AsciiLength(EncodeOrEmpty(v));
  }

  /** The lengths sent with each of the three bodies. */
  lemma PayloadLengths(cfg: Config.Config, amount: NumberText, creationId: Option<string>, unique: string,
                       creationRequestId: string, gcId: string, authorization: string, ts: string, target: string)
    ensures var p := GiftCardPayload(cfg, amount, creationId, unique);
      Signer.BuildHeaders(p, authorization, ts, target)[1] == "Content-Length: " + NatToString(|p|)
    ensures var p := CancelPayload(cfg, creationRequestId, gcId);
      Signer.BuildHeaders(p, authorization, ts, target)[1] == "Content-Length: " + NatToString(|p|)
    ensures var p := FundsPayload(cfg);
      Signer.BuildHeaders(p, authorization, ts, target)[1] == "Content-Length: " + NatToString(|p|)
  {
    var id := CreationRequestId(cfg.partner, creationId, unique);
    GiftCardJsonWellFormed(cfg, amount, id);
    FlatJsonWellFormed(cfg, creationRequestId, gcId);
    ContentLengthOfPayload(GiftCardJson(cfg, amount, id), authorization, ts, target);
    ContentLengthOfPayload(CancelJson(cfg, creationRequestId, gcId), authorization, ts, target);
    ContentLengthOfPayload(FundsJson(cfg), authorization, ts, target);
  }
}

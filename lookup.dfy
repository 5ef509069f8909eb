/** The price lookup: how a reply of `/api/price` is sorted into an error
    message or a displayed record (`fetchAndShow`), and how the record's
    fields become the texts of the result panel (`showResult`). */
module Lookup {
  import opened Optional
  import opened Text

  const Placeholder := "—"
  const ItemNoPrefix := "料號："
  const EmptyBarcodeMessage := "請先輸入或掃描條碼"
  const LookupFailedMessage := "查詢失敗，請稍後再試"
  const NotFoundMessage := "查無此商品"

  // ---------------------------------------------------------------------------
  // JSON values as the page sees them
  // ---------------------------------------------------------------------------

  /** A parsed JSON value. Numbers are integers (see README). */
  datatype Json =
    | JNull
    | JBool(b: bool)
    | JNum(n: int)
    | JStr(s: string)
    | JArr(items: seq<Json>)
    | JObj(members: map<string, Json>)

  /** `v[key]`; None is `undefined` (a missing member, or `v` not an object). */
  function Member(v: Json, key: string): Option<Json> {
    if v.JObj? && key in v.members then Some(v.members[key]) else None
  }

  /** JavaScript truthiness of a possibly undefined value. */
  predicate Truthy(v: Option<Json>) {
    match v
    case None => false
    case Some(JNull) => false
    case Some(JBool(b)) => b
    case Some(JNum(n)) => n != 0
    case Some(JStr(s)) => s != ""
    case Some(_) => true
  }

  /** A value that is not an array or an object. */
  predicate IsScalar(v: Json) {
    !v.JArr? && !v.JObj?
  }

  /** `String(v)`, which is what assigning `v` to `textContent` shows. */
  function ToText(v: Json): string
    decreases v, 1, 0
  {
    match v
    case JNull => "null"
    case JBool(b) => if b then "true" else "false"
    case JNum(n) => IntToString(n)
    case JStr(s) => s
    case JArr(items) => JoinFrom(v, 0)
    case JObj(_) => "[object Object]"
  }

  /** `items.slice(i).join(",")`, where null elements give the empty text. */
  function JoinFrom(arr: Json, i: nat): string
    requires arr.JArr? && i <= |arr.items|
    decreases arr, 0, |arr.items| - i
  {
    if i == |arr.items| then ""
    else
      var item := arr.items[i];
      var text := if item.JNull? then "" else ToText(item);
      if i + 1 == |arr.items| then text else text + "," + JoinFrom(arr, i + 1)
  }

  /** A truthy scalar never shows as the empty text. */
  lemma TruthyScalarText(v: Json)
    requires IsScalar(v) && Truthy(Some(v))
    ensures ToText(v) != ""
  {
  }

  // ---------------------------------------------------------------------------
  // showResult / showError
  // ---------------------------------------------------------------------------

  /** The five texts of the result panel. */
  datatype Display = Display(name: string, barcode: string, price: string, unit: string, extra: string)

  /** `value || fallback` assigned to `textContent`. */
  function TextOr(v: Option<Json>, fallback: string): string {
    if Truthy(v) then ToText(v.value) else fallback
  }

  /** The field mapping of `showResult`. Name and barcode fall back to the
      placeholder when falsy; the price only when null or undefined (loose
      `!= null`); the unit falls back to the empty text; the extra line is
      the item number behind its label when truthy. */
  function Fields(data: Json): Display {
    var price := Member(data, "price_excl_tax");
    var itemNo := Member(data, "item_no");
    Display(
      TextOr(Member(data, "product_name"), Placeholder),
      TextOr(Member(data, "barcode"), Placeholder),
      if price.None? || price.value.JNull? then Placeholder else ToText(price.value),
      TextOr(Member(data, "unit"), ""),
      if Truthy(itemNo) then ItemNoPrefix + ToText(itemNo.value) else "")
  }

  /** The visible state of the two panels and the result texts. */
  datatype Panels = Panels(errorShown: bool, errorText: string, resultShown: bool, shown: Display)

  /** `showError`: the error panel with `message`; the result panel hidden,
      its texts left as they were. */
  function ShowError(p: Panels, message: string): (q: Panels)
    ensures q.errorShown && !q.resultShown && q.errorText == message && q.shown == p.shown
  {
    p.(errorShown := true, errorText := message, resultShown := false)
  }

  /** `showResult`: the error panel hidden (its text kept), the result panel
      shown with the fields of `data`. */
  function ShowResult(p: Panels, data: Json): (q: Panels)
    ensures !q.errorShown && q.resultShown && q.errorText == p.errorText && q.shown == Fields(data)
  {
    p.(errorShown := false, resultShown := true, shown := Fields(data))
  }

  /** A record as the `/api/price` handler builds it on success. */
  function ApiRecord(barcode: string, itemNo: Json, name: Json, price: Json, unit: Json): Json {
    JObj(map["success" := JBool(true), "barcode" := JStr(barcode), "item_no" := itemNo,
             "product_name" := name, "price_excl_tax" := price, "unit" := unit])
  }

  /** A record whose fields are all present shows them verbatim: text fields
      as they are, the price as its decimal rendering, the item number
      behind its label. */
  lemma ApiRecordShown(barcode: string, itemNo: string, name: string, price: int, unit: string)
    requires barcode != "" && itemNo != "" && name != "" && unit != ""
    ensures Fields(ApiRecord(barcode, JStr(itemNo), JStr(name), JNum(price), JStr(unit)))
      == Display(name, barcode, IntToString(price), unit, ItemNoPrefix + itemNo)
  {
  }

  /** A price of 0 is shown as "0", not as the placeholder, while the other
      falsy fields of the same record fall back. */
  lemma ZeroPriceShown(barcode: string)
    requires barcode != ""
    ensures Fields(ApiRecord(barcode, JNull, JStr(""), JNum(0), JNull))
      == Display(Placeholder, barcode, "0", "", "")
  {
  }

  /** A record without any of the fields shows the placeholders. */
  lemma EmptyRecordShown()
    ensures Fields(JObj(map[])) == Display(Placeholder, Placeholder, Placeholder, "", "")
  {
  }

  /** For scalar fields, name and barcode are never blank, and the price is
      blank only when the server sent the empty text as the price. */
  lemma DisplayNeverBlank(data: Json)
    requires forall k :: k in ["product_name", "barcode", "price_excl_tax"] && Member(data, k).Some?
               ==> IsScalar(Member(data, k).value)
    ensures Fields(data).name != "" && Fields(data).barcode != ""
    ensures Fields(data).price == "" <==> Member(data, "price_excl_tax") == Some(JStr(""))
  {
    var name, code, price := Member(data, "product_name"), Member(data, "barcode"), Member(data, "price_excl_tax");
    if Truthy(name) {
      assert "product_name" in ["product_name", "barcode", "price_excl_tax"];
      TruthyScalarText(name.value);
    }
    if Truthy(code) {
      assert "barcode" in ["product_name", "barcode", "price_excl_tax"];
      TruthyScalarText(code.value);
    }
    if price.Some? && !price.value.JNull? {
      assert "price_excl_tax" in ["product_name", "barcode", "price_excl_tax"];
      match price.value
      case JNum(n) =>
        assert ToText(price.value) == IntToString(n);
      case _ =>
    }
  }

  // ---------------------------------------------------------------------------
  // fetchAndShow
  // ---------------------------------------------------------------------------

  /** What `fetch` yields: a network failure, or a reply with its `ok` flag
      and its body parsed as JSON (None when the body is not JSON). */
  datatype Response = NetworkFailure | Reply(ok: bool, body: Option<Json>)

  /** Whether a request was sent, and the panels afterwards. */
  datatype Lookup = Lookup(requested: bool, panels: Panels)

  /** A parsed reply the page treats as a record: truthy, and its `success`
      member not exactly `false`. */
  predicate IsRecord(data: Json) {
    Truthy(Some(data)) && Member(data, "success") != Some(JBool(false))
  }

  /** The message of a refused lookup: the reply's `message` when truthy,
      the not-found text otherwise. */
  function RefusalMessage(data: Json): string {
    if Truthy(Some(data)) && Truthy(Member(data, "message")) then ToText(Member(data, "message").value)
    else NotFoundMessage
  }

  /** `fetchAndShow(barcode)` with the server's answer supplied. */
  function FetchAndShow(p: Panels, barcode: string, response: Response): (r: Lookup)
    ensures !(r.panels.errorShown && r.panels.resultShown)
    ensures r.panels.errorShown || r.panels.resultShown
    ensures r.requested <==> barcode != ""
    ensures r.panels.resultShown <==>
      barcode != "" && response.Reply? && response.ok && response.body.Some? && IsRecord(response.body.value)
    ensures r.panels.resultShown ==> r.panels.shown == Fields(response.body.value)
  {
    if barcode == "" then Lookup(false, ShowError(p, EmptyBarcodeMessage))
    else
      match response
      case NetworkFailure => Lookup(true, ShowError(p, LookupFailedMessage))
      case Reply(ok, body) =>
        if !ok || body.None? then Lookup(true, ShowError(p, LookupFailedMessage))
        else if !IsRecord(body.value) then Lookup(true, ShowError(p, RefusalMessage(body.value)))
        else Lookup(true, ShowResult(p, body.value))
  }

  /** An empty barcode is refused before any request: the outcome does not
      depend on what the server would have answered. */
  lemma EmptyBarcodeNoRequest(p: Panels, r1: Response, r2: Response)
    ensures FetchAndShow(p, "", r1) == FetchAndShow(p, "", r2)
    ensures FetchAndShow(p, "", r1).panels.errorText == EmptyBarcodeMessage
  {
  }

  /** The error message shown for each kind of failed lookup. */
  lemma LookupErrorMessages(p: Panels, barcode: string, response: Response)
    requires barcode != ""
    ensures response.NetworkFailure? || (response.Reply? && (!response.ok || response.body.None?))
      ==> FetchAndShow(p, barcode, response).panels.errorText == LookupFailedMessage
    ensures response.Reply? && response.ok && response.body.Some? && !Truthy(response.body)
      ==> FetchAndShow(p, barcode, response).panels.errorText == NotFoundMessage
    ensures response.Reply? && response.ok && response.body.Some?
      && Member(response.body.value, "success") == Some(JBool(false))
      ==> FetchAndShow(p, barcode, response).panels.errorText ==
            if Truthy(Member(response.body.value, "message"))
            then ToText(Member(response.body.value, "message").value) else NotFoundMessage
  {
  }
}

# multishop backend: serializer business rules in Dafny

This project models the business rules of the shop backend's REST serializers
(`app/serializers.py`) and proves properties about them:

- **Product specifications.** The `specifications` text of a product is shown as a list of
  `{name, value}` records. The text is split on `'\n'` and each line is split on `':'`.
  Python's `str.split`, `str.join` and `str.replace` are modelled in module `PyStr`.
- **Order placement.** An order's `sum_price` is Σ `sale_price × count` over its items.
  Its `shipping_fee` is the constant `SHIPPING_FEE`, and `total_cost = sum_price + SHIPPING_FEE`.
  Each stored order item records the product's current sale price as its `order_price`
  and is linked to the new order. The ORM tables are fields of a `Shop` object.
- **Order cancellation.** Only an order in `WAITING_CONFIRM` can be cancelled. It then
  becomes `CANCEL`. Any other status raises `ClientException` and nothing changes.
- **Token refresh.** The result of decoding the presented token is an input. Decoding
  errors go through the `except` clauses in order, and the first clause that matches
  handles the error. A payload whose `type` is not REFRESH is refused. Otherwise the
  user named by the payload's `id` is recorded, and an ACCESS token is issued for that
  user.
- **Product detail.** `is_buy` holds when the current user has a SUCCESS order that
  contains the product. The description can be rewritten to add an inline style to
  every `<img`.

Modules: `Wrappers` (Option, Result), `PyStr`, `Specifications`, `Orders`, `Tokens`,
`ProductDetail`, one file each.

Inputs the model takes as parameters instead of computing them:

- The database contents: products, orders, order items and users are maps and sequences.
- The result of JWT decoding (`Extracted`).
- The current user and the `img_style` query parameter.

In a few places the shop's intended behaviour differs from what the code does. The model
follows the code:

- Order creation is meant to be all-or-nothing. The code writes the header before the
  items, with no transaction, so the model claims no all-or-nothing behaviour.
- Cancellation is meant to be refused 60 minutes after the order was placed. That check is
  commented out in the code, so it is not modelled.
- Every new order is meant to start in WAITING_CONFIRM. The code stores whatever validated
  `status` the submission carries (lines 411, 425), and so does the model (`req.status`
  in `Orders.Shop.CreateOrder`). This matters only if the Order model leaves `status`
  writable; that model is not part of this one.

## Model

| member | source | states |
|---|---|---|
| `PyStr.Split` | app/serializers.py:84-87 | `s.split(sep)` always yields at least one part |
| `PyStr.JoinSplit` | app/serializers.py:84 | joining the parts of `s.split(sep)` with `sep` gives `s` back; nothing is lost or reordered |
| `PyStr.SplitPartsAvoidSep` | app/serializers.py:87 | no part of a split contains the separator |
| `PyStr.SplitCharCount` | app/serializers.py:84 | splitting on a character gives exactly (number of occurrences) + 1 parts |
| `PyStr.SplitCharPartsAvoidSep` | app/serializers.py:87 | no part of a split on a character contains that character |
| `PyStr.SplitCharHead` | app/serializers.py:87-90 | the first part is the text before the first separator (the whole text if there is none); the remaining parts are the split of the text after that separator |
| `PyStr.SplitCharUnique` | app/serializers.py:84 | any list of separator-free parts that joins back to `s` is exactly `s.split(c)`, so the split is characterised both ways |
| `PyStr.SplitWithoutSep` | app/serializers.py:90 | a text without the separator splits into `[s]` |
| `PyStr.ReplaceIsJoinOfSplit` | app/serializers.py:241 | `s.replace(p, r)`, a left-to-right scan, equals `r.join(s.split(p))` |
| `PyStr.ReplaceWithoutOccurrence` | app/serializers.py:241 | replacing a pattern that does not occur leaves the text unchanged |
| `PyStr.Replace` | app/serializers.py:241 | definition of `s.replace(pat, rep)` as a left-to-right scan that rewrites each non-overlapping occurrence; its contract is `ReplaceIsJoinOfSplit` and `ReplaceWithoutOccurrence` |
| `Specifications.ParseEntry` | app/serializers.py:87-91 | `name` is the text before the first `':'`; `value` is the text between the first and second `':'`, so anything after a second `':'` is dropped; a line without `':'` gives `name` = the line and `value` = `""`; neither field contains `':'` |
| `Specifications.ToRepresentation` | app/serializers.py:82-92 | one record per `'\n'`-separated line, in order; (number of `'\n'`) + 1 records; the empty text gives one record with empty name and value |
| `Orders.CancelTransition` | app/serializers.py:470-472 | cancellation succeeds exactly from `WAITING_CONFIRM` and yields `CANCEL`; any other status gives `ClientException` with the source's message |
| `Orders.CancelTwiceFails` | app/serializers.py:470-472 | after a successful cancel, a second cancel fails with `ClientException` |
| `Orders.SumPrice` | app/serializers.py:426 | definition of Σ `sale_price × count` over the requested items; its contract is `LineItemsTotal` (the stored rows add up to it) and `Shop.CreateOrder` (it is the stored `sum_price`) |
| `Orders.CapturedItem` | app/serializers.py:400-402 | definition of the row stored for one requested item; its contract is `LineItemsCapturePrices` and `Shop.CreateItem` |
| `Orders.LineItems` | app/serializers.py:430-435 | definition of the rows stored for all requested items, in order; its contract is `LineItemsCapturePrices`, `LineItemsIgnoreClientFields` and `LineItemsTotal` |
| `Orders.LineItemsCapturePrices` | app/serializers.py:399-403 | one stored item per requested item, in order; each is linked to the new order, keeps the requested product and count, and has `order_price` = the product's current `sale_price` |
| `Orders.LineItemsIgnoreClientFields` | app/serializers.py:430-432 | the `order` and `order_price` sent by the client change neither the stored items nor `sum_price` |
| `Orders.LineItemsTotal` | app/serializers.py:426-435 | the stored items of the new order add up (Σ `order_price × count`) to its `sum_price`, and add nothing to any other order |
| `Orders.ItemsTotalAbsent` | app/serializers.py:430-431 | rows linked to other orders contribute nothing to an order's item total |
| `Orders.Shop.CreateItem` | app/serializers.py:399-403 | for an order already stored, appends one row whose `order_price` is the product's current sale price; nothing else changes; only a step of `CreateOrder` |
| `Orders.Shop.CreateOrder` | app/serializers.py:422-437 | if some item names an unknown product, a validation error and no change; otherwise the new order (next id) stores `sum_price` = Σ `sale_price × count`, `shipping_fee = SHIPPING_FEE`, `total_cost = sum_price + SHIPPING_FEE` and the header fields as submitted, the items are appended in order, and the shop invariant (`total_cost = sum_price + shipping_fee`, `sum_price` = total of the order's own items) is kept |
| `Orders.Shop.CancelOrder` | app/serializers.py:464-474 | from `WAITING_CONFIRM`: status becomes `CANCEL` and no other field or table changes; otherwise `ClientException` and nothing changes; the shop invariant is kept |
| `Tokens.FirstCatch` | app/serializers.py:42-51 | picks the first `except` clause whose class matches the raised error; no earlier clause matches; `None` only if no clause matches |
| `Tokens.Catches` | app/serializers.py:44-51 | definition of which `except` clause matches which library error; each error constructor stands for its class and subclasses, so `DecodeFailure` includes signature failures; its contract is `FirstCatch` and `HandlersCatchAll` |
| `Tokens.HandlerFailure` | app/serializers.py:44-51 | definition of what each clause raises: `TOKEN_EXPIRED`, `TOKEN_DECODING_ERROR`, or `AuthenticationFailed` with the default message; its contract is `CheckRefreshToken` |
| `Tokens.HandlersCatchAll` | app/serializers.py:42-51 | each of the three modelled InvalidTokenError outcomes is caught by one of the three clauses |
| `Tokens.CheckRefreshToken` | app/serializers.py:41-54 | expired gives `TOKEN_EXPIRED`; a decode error gives `TOKEN_DECODING_ERROR`; any other invalid token gives the default failure; a payload whose `type` is not REFRESH gives `TOKEN_WRONG_TYPE_REFRESH`; a missing user gives `DoesNotExist`; success exactly when a REFRESH payload names a stored user, and the result is that user |
| `Tokens.ExpiredDistinctFromMalformed` | app/serializers.py:44-49 | expired and malformed tokens are both refused, with different errors |
| `Tokens.IssueToken` | app/serializers.py:26-30 | definition of `jwt_util.extract_token`: a token whose claims are the user's id and the token kind (also used at line 57); its contract is `LoginTokensOnRefresh`, `RefreshIssuesAccessForPayloadUser` and `RefreshTokenSerializer.GetAccessToken` |
| `Tokens.PayloadOf` | app/serializers.py:43 | an assumption about the JWT library stated as a definition: decoding a token it signed that has not expired gives back that token's `id` and `type` claims; `LoginTokensOnRefresh` rests on it |
| `Tokens.LoginTokensOnRefresh` | app/serializers.py:26-30 | the refresh token issued at login to a stored user is accepted and resolves to that user; the access token issued with it is refused as the wrong type |
| `Tokens.RefreshIssuesAccessForPayloadUser` | app/serializers.py:54-57 | after a successful refresh, the new token is an ACCESS token whose subject is the payload's `id` |
| `Tokens.RefreshTokenSerializer.constructor` | app/serializers.py:37-39 | no user is recorded initially |
| `Tokens.RefreshTokenSerializer.ValidateRefreshToken` | app/serializers.py:41-54 | on success records the resolved user; on failure raises the error from `CheckRefreshToken` and leaves the recorded user unchanged |
| `Tokens.RefreshTokenSerializer.GetAccessToken` | app/serializers.py:56-57 | issues an ACCESS token for the recorded user |
| `ProductDetail.Purchases` | app/serializers.py:234 | the filtered rows are exactly the rows for this product that belong to a SUCCESS order of this user |
| `ProductDetail.IsBuy` | app/serializers.py:232-235 | true iff some order item has this product, and its order belongs to the user and has status SUCCESS |
| `ProductDetail.Description` | app/serializers.py:237-241 | without `img_style` the description is unchanged; with it, the text between `<img` occurrences is kept and each occurrence becomes `<img style="…"`; a description without `<img` is never changed |

## Left out

- `SHIPPING_FEE`, the `ORDER_STATUS`, `TOKEN_TYPE` and `ERROR_MESSAGE` constants and the models are defined in files that are not part of this model. `SHIPPING_FEE` is a constant of unknown value. Statuses other than the three used here would behave like `SUCCESS` in the cancellation guard.
- Persistence. The model describes the final state of the tables after a successful creation, not the intermediate state. `Order.objects.create` first writes the header with the submitted fields: the client's `sum_price`, `shipping_fee`, `total_cost` and `status`, or the Order model's defaults where none were sent (the serializer takes all fields, line 411). The computed prices are only saved at the end (line 436). If the re-validation of the items (line 434) raises, the header stays stored with those submitted prices and no items are written, so `total_cost = sum_price + shipping_fee` need not hold for it. `Orders.Shop.Valid` describes only the states reached by successful operations. That re-validation depends on field constraints of the OrderItem model, which is not part of this model. The only validation modelled is the product lookup of the item field.
- Concurrency. Two concurrent cancel or confirm requests could both see WAITING_CONFIRM, because the code reads the status and then writes it, with no atomic compare-and-set. The model runs operations one at a time.
- Number types. Sale prices, order prices, counts and totals are unbounded integers in the model. Their field types are defined in the models, which are not part of this model, so a decimal or floating-point `sale_price` (rounding, precision) is not captured.
- JWT signing, decoding and expiry times. A token is modelled by its claims, and the result of decoding it is an input. The model assumes that ExpiredSignatureError and DecodeError are subclasses of InvalidTokenError, as in the JWT library. A `type` claim that is not one of the known kinds is modelled as absent. `Tokens.PayloadOf` states as a definition the assumption that decoding a token the library signed, before it expires, gives back its `id` and `type` claims.
- Tokens.HandlersCatchAll: holds only because the model admits just the three InvalidTokenError outcomes. In the source, an error from `jwt_util.extract_payload` that is not an InvalidTokenError escapes all three clauses at lines 44-51 and propagates. Examples are the JWT library's InvalidKeyError and any non-JWT exception. Such errors are not modelled; `Propagated` is the model's name for that path.
- The value that `validate_refresh_token` returns (None) is not modelled. A `get_access_token` called before validation is excluded by its precondition, as when the serializer is used through the framework.
- `LoginSerializer` is modelled only through the tokens it issues (`IssueToken`): it checks no password itself (lines 13-30 only issue tokens). Credentials are checked outside the serializers, and that check is not modelled. `RegisterSerializer.create` is left out, because `make_password` belongs to a hashing library that is not modelled.
- `get_avg_rating` and `get_discount` are left out, because they compute with floating point and `round`.
- The `utcnow()` delta in cancellation is computed but never used, and the 60-minute window is commented out.
- The unused `super().to_representation(value)` at line 83 is left out.
- `is_buy` for an anonymous user (whose id is None) is not modelled: the current user is a user id.
- `str.split` with an empty separator (a ValueError in Python): the serializers only pass non-empty literals.
- Plain field-mapping serializers and `app/api_views/urls.py` are left out, because they are declarations with no behaviour.

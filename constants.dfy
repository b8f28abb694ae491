/** The `ValidationErrors` reason codes the handlers attach to fields.
    Their rendered strings live in server/constants.py, which is not part of
    this model; only their identity matters here. */
module Constants {
  datatype ValidationError =
    | NotUnique
    | NotFound
    | MustBeInt
    | TooBig
    | SameAsSourceAccount
    | NotEnoughtMoney
    | MustBeGreater0
}

/** `ConfigResponse`: the `{status, message, data}` envelope around every
    answer of the configuration service. */
module ConfigResponses {
  import opened Wrappers
  import opened Runtime

  /** `data` is `None` when the service sent none (a null `Data`). */
  datatype ConfigResponse<T> = ConfigResponse(status: int, message: Str, data: Option<T>)
}

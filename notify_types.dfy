/** The request and result records of the notifier layer. */
module NotifyTypes {
  import opened Wrappers

  /** Options for sending a native notification. `timeout` is in seconds; JS
      numbers are modelled as integers. */
  datatype NotifyOptions = NotifyOptions(
    message: string,
    title: string,
    actions: Option<seq<string>>,
    dropdownLabel: Option<string>,
    reply: Option<bool>,
    contentImage: Option<string>,
    timeout: Option<int>)

  /** The outcome of a delivered notification: the response (a sentinel such as
      "timeout" or "closed", or the label of the action chosen), the reply text
      and how the user interacted. */
  datatype NotifyResult = NotifyResult(
    response: string,
    reply: Option<string>,
    activationType: Option<string>)
}

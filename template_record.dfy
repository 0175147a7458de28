/** The stored email template record, as far as the placeholder engine and the catalog use it. */
module TemplateRecord {
  import opened Options

  /** The columns of a stored template that the engine reads or the catalog writes. */
  datatype Template = Template(
    name: string,
    subject: string,
    htmlContent: string,
    textContent: Option<string>,
    templateType: string,
    createdByUserId: int)
}

/** The per-transport publish-port configuration key of RegistryUtils. */
module PortKey {
  import opened JavaString

  /** Template of the per-transport publish-port key. */
  const PUBLISH_PORT := "cse.{transport_name}.publishPort"

  /** The placeholder in PUBLISH_PORT that the transport's scheme replaces. */
  const TRANSPORT_NAME := "{transport_name}"

  /** The template is "cse.", the placeholder, then ".publishPort". */
  lemma TemplateParts()
    ensures PUBLISH_PORT == "cse." + TRANSPORT_NAME + ".publishPort"
  {
  }

  /** The placeholder occurs once only, after "cse.", which holds no '{'. */
  lemma ReplacePlaceholder(scheme: string)
    ensures Replace("cse." + TRANSPORT_NAME + ".publishPort", TRANSPORT_NAME, scheme) == "cse." + scheme + ".publishPort"
  {
    ReplaceSingle("cse.", TRANSPORT_NAME, ".publishPort", scheme);
  }

  lemma PortKeyTemplate(scheme: string)
    ensures Replace(PUBLISH_PORT, TRANSPORT_NAME, scheme) == "cse." + scheme + ".publishPort"
  {
    TemplateParts();
    ReplacePlaceholder(scheme);
  }

  /** The key of the publish-port setting of a transport. */
  function PublishPortKey(scheme: string): (key: string)
    ensures key == "cse." + scheme + ".publishPort"
  {
    PortKeyTemplate(scheme);
    Replace(PUBLISH_PORT, TRANSPORT_NAME, scheme)
  }
}

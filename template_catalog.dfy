/**
 * The catalog of template types and their canned default content.
 * The PHP source writes the bodies in single quotes, where `\n` is a
 * backslash followed by `n`, not a line break; the strings below keep that.
 */
module TemplateCatalog {
  import opened Options
  import opened TemplateRecord

  const TypeInvitation := "invitation"
  const TypePasswordReset := "password_reset"
  const TypeWelcome := "welcome"
  const TypeNotification := "notification"
  const TypeGeneral := "general"

  /** `getAvailableTypes`: each type value with its display label, in display order. */
  function AvailableTypes(): (types: seq<(string, string)>)
    ensures |types| == 5
    ensures forall i, j :: 0 <= i < j < |types| ==> types[i].0 != types[j].0
  {
    [(TypeInvitation, "User Invitation"),
     (TypePasswordReset, "Password Reset"),
     (TypeWelcome, "Welcome Message"),
     (TypeNotification, "Notification"),
     (TypeGeneral, "General")]
  }

  /** The canned fields of one default template. */
  datatype Content = Content(name: string, subject: string, htmlContent: string, textContent: string)

  // The content table of `createDefaultTemplate`, one entry per type.

  const InvitationContent := Content(
    "Default User Invitation",
    "You're invited to join {{app_name}}",
    "<h2>Welcome!</h2><p>Hello {{user_name}},</p><p>You have been invited to join {{app_name}}.</p><p>Please click <a href=\"{{invitation_url}}\">here</a> to accept the invitation.</p>",
    "Hello {{user_name}},\\n\\nYou have been invited to join {{app_name}}.\\n\\nPlease click the following link to accept the invitation:\\n{{invitation_url}}\\n\\nBest regards,\\n{{app_name}} Team")

  const PasswordResetContent := Content(
    "Default Password Reset",
    "Reset Your {{app_name}} Password",
    "<h2>Password Reset</h2><p>Hello {{user_name}},</p><p>You are receiving this email because we received a password reset request for your account.</p><p><a href=\"{{reset_url}}\">Reset Password</a></p>",
    "Hello {{user_name}},\\n\\nYou are receiving this email because we received a password reset request for your account.\\n\\nPlease click the following link to reset your password:\\n{{reset_url}}\\n\\nIf you did not request a password reset, no further action is required.\\n\\nBest regards,\\n{{app_name}} Team")

  const WelcomeContent := Content(
    "Default Welcome Message",
    "Welcome to {{app_name}}!",
    "<h2>Welcome!</h2><p>Hello {{user_name}},</p><p>Welcome to {{app_name}}! We're excited to have you on board.</p><p><a href=\"{{app_url}}\">Visit Dashboard</a></p>",
    "Hello {{user_name}},\\n\\nWelcome to {{app_name}}! We're excited to have you on board.\\n\\nYou can access your dashboard at: {{app_url}}\\n\\nIf you have any questions, please don't hesitate to contact us.\\n\\nBest regards,\\n{{app_name}} Team")

  const NotificationContent := Content(
    "Default Notification",
    "New Notification from {{app_name}}",
    "<h2>{{notification_title}}</h2><p>Hello {{user_name}},</p><p>You have a new notification:</p><div>{{notification_content}}</div>",
    "Hello {{user_name}},\\n\\nYou have a new notification:\\n\\n{{notification_title}}\\n{{notification_content}}\\n\\nYou can view all your notifications at: {{app_url}}/notifications\\n\\nBest regards,\\n{{app_name}} Team")

  const GeneralContent := Content(
    "Default General Template",
    "Message from {{app_name}}",
    "<p>Hello {{user_name}},</p><p>{{message}}</p><p>Best regards,<br>{{app_name}} Team</p>",
    "Hello {{user_name}},\\n\\n{{message}}\\n\\nBest regards,\\n{{app_name}} Team")

  /** A type value the content table has an entry for. */
  predicate IsKnownType(templateType: string)
  {
    templateType == TypeInvitation || templateType == TypePasswordReset || templateType == TypeWelcome
    || templateType == TypeNotification || templateType == TypeGeneral
  }

  /** `$templates[$type] ?? $templates[self::TYPE_GENERAL]`: the table lookup with its fallback. */
  function ContentFor(templateType: string): (c: Content)
    ensures !IsKnownType(templateType) ==> c == GeneralContent
  {
    if templateType == TypeInvitation then InvitationContent
    else if templateType == TypePasswordReset then PasswordResetContent
    else if templateType == TypeWelcome then WelcomeContent
    else if templateType == TypeNotification then NotificationContent
    else GeneralContent
  }

  /**
   * `createDefaultTemplate`: the record handed to the store, built from the
   * content for the type, with the type and creator exactly as requested.
   */
  function CreateDefaultTemplate(templateType: string, createdByUserId: int): (t: Template)
    ensures t.templateType == templateType && t.createdByUserId == createdByUserId
    ensures t.textContent.Some?
    ensures var c := ContentFor(templateType);
      t.name == c.name && t.subject == c.subject && t.htmlContent == c.htmlContent && t.textContent == Some(c.textContent)
  {
    var c := ContentFor(templateType);
    Template(c.name, c.subject, c.htmlContent, Some(c.textContent), templateType, createdByUserId)
  }

  /** The content table has an entry for exactly the types `getAvailableTypes` lists. */
  lemma {:induction false} KnownTypesAreAvailableTypes(templateType: string)
    ensures IsKnownType(templateType) <==>
      exists i :: 0 <= i < |AvailableTypes()| && AvailableTypes()[i].0 == templateType
  {
    var types := AvailableTypes();
    if IsKnownType(templateType) {
      if templateType == TypeInvitation { assert types[0].0 == templateType; }
      else if templateType == TypePasswordReset { assert types[1].0 == templateType; }
      else if templateType == TypeWelcome { assert types[2].0 == templateType; }
      else if templateType == TypeNotification { assert types[3].0 == templateType; }
      else { assert types[4].0 == templateType; }
    }
  }

  /**
   * A type `getAvailableTypes` does not list gets the general content, yet the
   * stored record keeps the type value it was asked for.
   */
  lemma UnknownTypeFallsBackToGeneral(templateType: string, createdByUserId: int)
    requires forall i :: 0 <= i < |AvailableTypes()| ==> AvailableTypes()[i].0 != templateType
    ensures var t := CreateDefaultTemplate(templateType, createdByUserId);
      var g := GeneralContent;
      t.name == g.name && t.subject == g.subject && t.htmlContent == g.htmlContent
      && t.textContent == Some(g.textContent) && t.templateType == templateType
  {
    KnownTypesAreAvailableTypes(templateType);
    assert !IsKnownType(templateType);
  }
}

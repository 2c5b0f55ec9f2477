/** The MIME type names the pipeline dispatches on. */
module MimeTypes {

  const MsWord := "application/msword"
  const Docx := "application/vnd.openxmlformats-officedocument.wordprocessingml.document"
  const Pdf := "application/pdf"
  const Odt := "application/vnd.oasis.opendocument.text"
  const PlainText := "text/plain"
  const Rtf := "application/rtf"
  const GoogleDoc := "application/vnd.google-apps.document"
  const GoogleFolder := "application/vnd.google-apps.folder"
}

/** The vb2_error_t status values that the modelled code returns. */
module Status {

  datatype Status =
    | Success                      // VB2_SUCCESS
    | ErrorWorkbufAlign            // VB2_ERROR_WORKBUF_ALIGN
    | ErrorWorkbufSmall            // VB2_ERROR_WORKBUF_SMALL
    | ErrorWorkbufInvalid          // VB2_ERROR_WORKBUF_INVALID
    | ErrorSharedDataMagic         // VB2_ERROR_SHARED_DATA_MAGIC
    | ErrorSharedDataVersion       // VB2_ERROR_SHARED_DATA_VERSION
    | ErrorExHwcryptoUnsupported   // VB2_ERROR_EX_HWCRYPTO_UNSUPPORTED
    | ErrorShaExtendAlgorithm      // VB2_ERROR_SHA_EXTEND_ALGORITHM
    | ErrorShaFinalizeAlgorithm    // VB2_ERROR_SHA_FINALIZE_ALGORITHM

  datatype Option<+T> = None | Some(value: T)
}
